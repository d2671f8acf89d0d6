/** The architecture genome: its layer genes, what makes it valid, and the standard transformer blueprint. */
module Genome {

  datatype LayerType =
    | LINEAR | ATTENTION | FEEDFORWARD | NORM | EMBEDDING | CONV1D | DROPOUT | ACTIVATION | SKIP

  /** A layer gene. A dimension of zero (or below) means that the layer does not fix it. */
  datatype LayerGene = LayerGene(
    layerType: LayerType,
    inputDim: int,
    outputDim: int,
    numHeads: int,
    activation: string,
    dropout: real,
    skipTarget: int,
    geneId: string)

  function Gene(layerType: LayerType, inputDim: int, outputDim: int, numHeads: int, activation: string): LayerGene {
    LayerGene(layerType, inputDim, outputDim, numHeads, activation, 0.0, -1, "")
  }

  datatype GenomeError =
    | EmptyGenome
    | HeadsDoNotDivide(at: nat)
    | SkipNotBefore(at: nat)
    | SkipDimensionMismatch(at: nat)
    | ChainMismatch(at: nat)

  // --- Validity ---

  predicate HeadsDivide(layerType: LayerType, inputDim: int, numHeads: int) {
    layerType == ATTENTION && inputDim > 0 && numHeads > 0 ==> inputDim % numHeads == 0
  }

  predicate HeadsOk(g: LayerGene) {
    HeadsDivide(g.layerType, g.inputDim, g.numHeads)
  }

  predicate AllHeadsOk(genes: seq<LayerGene>) {
    forall i | 0 <= i < |genes| :: HeadsOk(genes[i])
  }

  predicate SkipOk(genes: seq<LayerGene>, i: nat)
    requires i < |genes|
  {
    genes[i].skipTarget >= 0 ==>
      && genes[i].skipTarget < i
      && (var source, target := genes[genes[i].skipTarget].outputDim, genes[i].inputDim;
          source > 0 && target > 0 ==> source == target)
  }

  /** Gene `j` receives what gene `i` put out: no gene in between fixes the width anew. */
  predicate Feeds(genes: seq<LayerGene>, i: nat, j: nat)
    requires i < j < |genes|
  {
    genes[i].outputDim > 0 && genes[j].inputDim > 0 && forall k | i < k < j :: genes[k].outputDim <= 0
  }

  predicate Chained(genes: seq<LayerGene>) {
    forall i: nat, j: nat | i < j < |genes| && Feeds(genes, i, j) :: genes[i].outputDim == genes[j].inputDim
  }

  predicate Valid(genes: seq<LayerGene>) {
    && genes != []
    && (forall i | 0 <= i < |genes| :: HeadsOk(genes[i]) && SkipOk(genes, i))
    && Chained(genes)
  }

  predicate SkipFree(genes: seq<LayerGene>) {
    forall i | 0 <= i < |genes| :: genes[i].skipTarget < 0
  }

  // --- The chain, read left to right ---

  /** The width that reaches the end of `genes` when `width` enters (zero: none fixed yet). */
  function Carry(width: int, genes: seq<LayerGene>): int
    decreases |genes|
  {
    if genes == [] then width
    else Carry(if genes[0].outputDim > 0 then genes[0].outputDim else width, genes[1..])
  }

  predicate ChainFrom(width: int, genes: seq<LayerGene>)
    decreases |genes|
  {
    genes != [] ==>
      && (genes[0].inputDim > 0 && width > 0 ==> genes[0].inputDim == width)
      && ChainFrom(if genes[0].outputDim > 0 then genes[0].outputDim else width, genes[1..])
  }

  lemma {:induction false} CarryConcat(width: int, a: seq<LayerGene>, b: seq<LayerGene>)
    ensures Carry(width, a + b) == Carry(Carry(width, a), b)
    decreases |a|
  {
    if a == [] {
      assert a + b == b;
    } else {
      assert (a + b)[1..] == a[1..] + b;
      CarryConcat(if a[0].outputDim > 0 then a[0].outputDim else width, a[1..], b);
    }
  }

  lemma {:induction false} ChainConcat(width: int, a: seq<LayerGene>, b: seq<LayerGene>)
    ensures ChainFrom(width, a + b) <==> ChainFrom(width, a) && ChainFrom(Carry(width, a), b)
    decreases |a|
  {
    if a == [] {
      assert a + b == b;
    } else {
      assert (a + b)[1..] == a[1..] + b;
      ChainConcat(if a[0].outputDim > 0 then a[0].outputDim else width, a[1..], b);
    }
  }

  lemma {:induction false} CarrySource(genes: seq<LayerGene>, width: int)
    ensures (forall i | 0 <= i < |genes| :: genes[i].outputDim <= 0) ==> Carry(width, genes) == width
    ensures forall i | 0 <= i < |genes| && genes[i].outputDim > 0 && (forall k | i < k < |genes| :: genes[k].outputDim <= 0)
              :: Carry(width, genes) == genes[i].outputDim
    ensures Carry(width, genes) == width || exists i ::
              0 <= i < |genes| && genes[i].outputDim == Carry(width, genes) > 0
              && forall k | i < k < |genes| :: genes[k].outputDim <= 0
  {
    if genes == [] {
    } else {
      var n := |genes| - 1;
      CarrySource(genes[..n], width);
      assert genes == genes[..n] + [genes[n]];
      CarryConcat(width, genes[..n], [genes[n]]);
      assert [genes[n]][1..] == [];
    }
  }

  lemma {:induction false} ChainAt(genes: seq<LayerGene>, width: int)
    ensures ChainFrom(width, genes) <==>
      forall j | 0 <= j < |genes| :: genes[j].inputDim > 0 && Carry(width, genes[..j]) > 0 ==>
        genes[j].inputDim == Carry(width, genes[..j])
  {
    if genes == [] {
    } else {
      var n := |genes| - 1;
      var init := genes[..n];
      ChainAt(init, width);
      assert genes == init + [genes[n]];
      ChainConcat(width, init, [genes[n]]);
      assert [genes[n]][1..] == [];
      assert forall j | 0 <= j < n :: init[..j] == genes[..j];
    }
  }

  predicate MissesCarried(genes: seq<LayerGene>, j: nat)
    requires j < |genes|
  {
    genes[j].inputDim > 0 && Carry(0, genes[..j]) > 0 && genes[j].inputDim != Carry(0, genes[..j])
  }

  /** Some gene feeds gene `j` another width than it asks for. */
  predicate MissesFeeder(genes: seq<LayerGene>, j: nat)
    requires j < |genes|
  {
    exists i: nat :: i < j && Feeds(genes, i, j) && genes[i].outputDim != genes[j].inputDim
  }

  /** The width carried to gene `j` is that of the gene that feeds it. */
  lemma CarriedIsFed(genes: seq<LayerGene>, j: nat)
    requires j < |genes|
    ensures MissesCarried(genes, j) <==> MissesFeeder(genes, j)
  {
    CarrySource(genes[..j], 0);
    forall i: nat | i < j && Feeds(genes, i, j) ensures Carry(0, genes[..j]) == genes[i].outputDim {
      assert genes[..j][i].outputDim > 0;
    }
    if genes[j].inputDim > 0 && Carry(0, genes[..j]) > 0 {
      var i :| 0 <= i < j && genes[..j][i].outputDim == Carry(0, genes[..j]) > 0
               && forall k | i < k < j :: genes[..j][k].outputDim <= 0;
      assert forall k | i < k < j :: genes[k].outputDim == genes[..j][k].outputDim;
      assert Feeds(genes, i, j);
    }
  }

  /** Reading left to right checks exactly the pairs of genes that feed one another. */
  lemma ChainedIff(genes: seq<LayerGene>)
    ensures ChainFrom(0, genes) <==> Chained(genes)
  {
    ChainAt(genes, 0);
    forall j | 0 <= j < |genes| ensures MissesCarried(genes, j) <==> MissesFeeder(genes, j) {
      CarriedIsFed(genes, j);
    }
    if ChainFrom(0, genes) {
      forall i: nat, j: nat | i < j < |genes| && Feeds(genes, i, j) ensures genes[i].outputDim == genes[j].inputDim {
        assert !MissesCarried(genes, j) && !MissesFeeder(genes, j);
      }
    }
    if Chained(genes) {
      forall j | 0 <= j < |genes|
        ensures genes[j].inputDim > 0 && Carry(0, genes[..j]) > 0 ==> genes[j].inputDim == Carry(0, genes[..j])
      {
        assert !MissesFeeder(genes, j) && !MissesCarried(genes, j);
      }
    }
  }

  /** What each error means. */
  predicate Wrong(genes: seq<LayerGene>, e: GenomeError) {
    match e
    case EmptyGenome => genes == []
    case HeadsDoNotDivide(i) => i < |genes| && !HeadsOk(genes[i])
    case SkipNotBefore(i) => i < |genes| && genes[i].skipTarget >= i
    case SkipDimensionMismatch(i) =>
      && i < |genes| && 0 <= genes[i].skipTarget < i
      && (var source := genes[genes[i].skipTarget].outputDim;
          source > 0 && genes[i].inputDim > 0 && source != genes[i].inputDim)
    case ChainMismatch(i) => i < |genes| && MissesFeeder(genes, i)
  }

  /** A genome is valid exactly when nothing is wrong with it. */
  lemma ValidIffNothingWrong(genes: seq<LayerGene>)
    ensures Valid(genes) <==> forall e: GenomeError :: !Wrong(genes, e)
  {
    if forall e: GenomeError :: !Wrong(genes, e) {
      assert !Wrong(genes, EmptyGenome);
      forall i | 0 <= i < |genes| ensures HeadsOk(genes[i]) && SkipOk(genes, i) && !MissesFeeder(genes, i) {
        assert !Wrong(genes, HeadsDoNotDivide(i)) && !Wrong(genes, SkipNotBefore(i));
        assert !Wrong(genes, SkipDimensionMismatch(i)) && !Wrong(genes, ChainMismatch(i));
      }
    }
  }

  /** Everything hashed into a genome's identity. */
  datatype Snapshot = Snapshot(modelId: string, genes: seq<LayerGene>, generation: int, parentHash: string)

  predicate IsOfGene(e: GenomeError, i: nat) {
    !e.EmptyGenome? && !e.ChainMismatch? && e.at == i
  }

  lemma CarryNext(genes: seq<LayerGene>, i: nat)
    requires i < |genes|
    ensures Carry(0, genes[..i + 1]) == if genes[i].outputDim > 0 then genes[i].outputDim else Carry(0, genes[..i])
  {
    assert genes[..i + 1] == genes[..i] + [genes[i]] && [genes[i]][1..] == [];
    CarryConcat(0, genes[..i], [genes[i]]);
  }

  class ArchitectureGenome {
    var modelId: string
    var genes: seq<LayerGene>
    var generation: int
    var parentHash: string

    function Contents(): Snapshot
      reads this
    {
      Snapshot(modelId, genes, generation, parentHash)
    }

    constructor (modelId: string, genes: seq<LayerGene>, generation: int, parentHash: string)
      ensures Contents() == Snapshot(modelId, genes, generation, parentHash)
    {
      this.modelId := modelId;
      this.genes := genes;
      this.generation := generation;
      this.parentHash := parentHash;
    }

    /** `clone`: an equal genome that shares nothing with this one. */
    method Clone() returns (copy: ArchitectureGenome)
      ensures fresh(copy) && copy.Contents() == Contents()
    {
      copy := new ArchitectureGenome(modelId, genes, generation, parentHash);
    }

    method CheckGene(i: nat) returns (errors: seq<GenomeError>)
      requires i < |genes|
      ensures forall e :: e in errors <==> IsOfGene(e, i) && Wrong(genes, e)
    {
      errors := [];
      var gene := genes[i];
      if gene.layerType == ATTENTION && gene.inputDim > 0 && gene.numHeads > 0 && gene.inputDim % gene.numHeads != 0 {
        errors := errors + [HeadsDoNotDivide(i)];
      }
      if gene.skipTarget >= 0 {
        if gene.skipTarget >= i {
          errors := errors + [SkipNotBefore(i)];
        } else {
          // an index below i is in range, so the range error the source lists next cannot occur
          var source := genes[gene.skipTarget].outputDim;
          if source > 0 && gene.inputDim > 0 && source != gene.inputDim {
            errors := errors + [SkipDimensionMismatch(i)];
          }
        }
      }
    }

    method CheckGenes() returns (errors: seq<GenomeError>)
      requires genes != []
      ensures forall e :: e in errors <==> !e.ChainMismatch? && Wrong(genes, e)
    {
      errors := [];
      for i := 0 to |genes|
        invariant forall e :: e in errors <==> Wrong(genes, e) && exists j | 0 <= j < i :: IsOfGene(e, j)
      {
        var found := CheckGene(i);
        errors := errors + found;
      }
      assert forall e: GenomeError | Wrong(genes, e) && !e.ChainMismatch? :: IsOfGene(e, e.at);
    }

    method CheckChain() returns (errors: seq<GenomeError>)
      ensures forall e :: e in errors <==> e.ChainMismatch? && Wrong(genes, e)
    {
      errors := [];
      var prevOut := 0;
      for i := 0 to |genes|
        invariant prevOut == Carry(0, genes[..i])
        invariant forall e :: e in errors <==> e.ChainMismatch? && e.at < i && Wrong(genes, e)
      {
        var gene := genes[i];
        CarriedIsFed(genes, i);
        CarryNext(genes, i);
        if gene.inputDim > 0 && prevOut > 0 && gene.inputDim != prevOut {
          errors := errors + [ChainMismatch(i)];
        }
        if gene.outputDim > 0 {
          prevOut := gene.outputDim;
        }
      }
    }

    /** `validate`: reports exactly what is wrong, and so nothing exactly for a valid genome. */
    method Validate() returns (errors: seq<GenomeError>)
      ensures forall e :: e in errors <==> Wrong(genes, e)
      ensures errors == [] <==> Valid(genes)
    {
      ValidIffNothingWrong(genes);
      if genes == [] {
        return [EmptyGenome];
      }
      errors := CheckGenes();
      var chain := CheckChain();
      errors := errors + chain;
      assert errors != [] ==> errors[0] in errors;
    }
  }

  // --- The standard transformer ---

  function Block(hidden: int, heads: int, ff: int): seq<LayerGene> {
    [Gene(ATTENTION, hidden, hidden, heads, "relu"),
     Gene(NORM, hidden, hidden, 1, "relu"),
     Gene(LINEAR, hidden, ff, 1, "relu"),
     Gene(ACTIVATION, ff, ff, 1, "gelu"),
     Gene(LINEAR, ff, hidden, 1, "relu"),
     Gene(NORM, hidden, hidden, 1, "relu")]
  }

  function Blocks(n: nat, hidden: int, heads: int, ff: int): seq<LayerGene> {
    if n == 0 then [] else Blocks(n - 1, hidden, heads, ff) + Block(hidden, heads, ff)
  }

  function FeedForwardWidth(hidden: int, ff: int): int {
    if ff != 0 then ff else hidden * 4
  }

  /** `simple_transformer`: one block of six genes per layer. */
  method SimpleTransformer(modelId: string, layers: nat, hidden: int, heads: int, ff: int) returns (g: ArchitectureGenome)
    ensures fresh(g)
    ensures g.Contents() == Snapshot(modelId, Blocks(layers, hidden, heads, FeedForwardWidth(hidden, ff)), 0, "")
  {
    var width := if ff != 0 then ff else hidden * 4;
    var genes: seq<LayerGene> := [];
    for i := 0 to layers
      invariant genes == Blocks(i, hidden, heads, width)
    {
      genes := genes + [Gene(ATTENTION, hidden, hidden, heads, "relu")] + [Gene(NORM, hidden, hidden, 1, "relu")]
        + [Gene(LINEAR, hidden, width, 1, "relu")] + [Gene(ACTIVATION, width, width, 1, "gelu")]
        + [Gene(LINEAR, width, hidden, 1, "relu")] + [Gene(NORM, hidden, hidden, 1, "relu")];
      assert genes == Blocks(i, hidden, heads, width) + Block(hidden, heads, width);
    }
    g := new ArchitectureGenome(modelId, genes, 0, "");
  }

  lemma {:induction false} BlocksLength(n: nat, hidden: int, heads: int, ff: int)
    ensures |Blocks(n, hidden, heads, ff)| == 6 * n
  {
    if n > 0 { BlocksLength(n - 1, hidden, heads, ff); }
  }

  /** The genes of the blueprint, layer by layer: attention, norm, the way up to the feed-forward width (four times the hidden one
      when none is given), activation, the way down, norm. */
  lemma {:induction false} BlueprintGene(layers: nat, hidden: int, heads: int, ff: int, layer: nat, k: nat)
    requires layer < layers && k < 6
    ensures var genes, width := Blocks(layers, hidden, heads, FeedForwardWidth(hidden, ff)), if ff == 0 then 4 * hidden else ff;
      |genes| == 6 * layers && genes[6 * layer + k] ==
        if k == 0 then LayerGene(ATTENTION, hidden, hidden, heads, "relu", 0.0, -1, "")
        else if k == 1 || k == 5 then LayerGene(NORM, hidden, hidden, 1, "relu", 0.0, -1, "")
        else if k == 2 then LayerGene(LINEAR, hidden, width, 1, "relu", 0.0, -1, "")
        else if k == 3 then LayerGene(ACTIVATION, width, width, 1, "gelu", 0.0, -1, "")
        else LayerGene(LINEAR, width, hidden, 1, "relu", 0.0, -1, "")
  {
    if layer < layers - 1 {
      BlueprintGene(layers - 1, hidden, heads, ff, layer, k);
    } else {
      BlocksLength(layers - 1, hidden, heads, FeedForwardWidth(hidden, ff));
    }
  }

  lemma ChainStep(width: int, genes: seq<LayerGene>)
    requires genes != []
    ensures var w := if genes[0].outputDim > 0 then genes[0].outputDim else width;
      && Carry(width, genes) == Carry(w, genes[1..])
      && (ChainFrom(width, genes) <==> (genes[0].inputDim > 0 && width > 0 ==> genes[0].inputDim == width) && ChainFrom(w, genes[1..]))
  {
  }

  /** Either no width is fixed yet, or the width is the hidden one: then a block chains and hands it on. */
  lemma BlockChains(width: int, hidden: int, heads: int, ff: int)
    requires hidden > 0 ==> width == 0 || width == hidden
    requires hidden <= 0 ==> width == 0 || width == ff
    ensures ChainFrom(width, Block(hidden, heads, ff))
    ensures hidden > 0 ==> Carry(width, Block(hidden, heads, ff)) == hidden
    ensures hidden <= 0 ==> Carry(width, Block(hidden, heads, ff)) == 0 || Carry(width, Block(hidden, heads, ff)) == ff
  {
    var b := Block(hidden, heads, ff);
    var w1 := if hidden > 0 then hidden else width;
    var w2 := if ff > 0 then ff else w1;
    var w3 := if hidden > 0 then hidden else w2;
    ChainStep(width, b);
    ChainStep(w1, b[1..]);
    ChainStep(w1, b[2..]);
    ChainStep(w2, b[3..]);
    ChainStep(w2, b[4..]);
    ChainStep(w3, b[5..]);
    assert b[1..][1..] == b[2..] && b[2..][1..] == b[3..] && b[3..][1..] == b[4..] && b[4..][1..] == b[5..] && b[5..][1..] == [];
  }

  lemma {:induction false} BlocksChain(n: nat, hidden: int, heads: int, ff: int)
    ensures ChainFrom(0, Blocks(n, hidden, heads, ff))
    ensures hidden > 0 ==> Carry(0, Blocks(n, hidden, heads, ff)) in {0, hidden}
    ensures hidden <= 0 ==> Carry(0, Blocks(n, hidden, heads, ff)) in {0, ff}
  {
    if n == 0 {
    } else {
      BlocksChain(n - 1, hidden, heads, ff);
      var before := Blocks(n - 1, hidden, heads, ff);
      BlockChains(Carry(0, before), hidden, heads, ff);
      ChainConcat(0, before, Block(hidden, heads, ff));
      CarryConcat(0, before, Block(hidden, heads, ff));
    }
  }

  lemma {:induction false} BlocksHeads(n: nat, hidden: int, heads: int, ff: int)
    ensures |Blocks(n, hidden, heads, ff)| == 6 * n
    ensures SkipFree(Blocks(n, hidden, heads, ff))
    ensures HeadsDivide(ATTENTION, hidden, heads) ==>
        forall i | 0 <= i < |Blocks(n, hidden, heads, ff)| :: HeadsOk(Blocks(n, hidden, heads, ff)[i])
    ensures n > 0 ==> Blocks(n, hidden, heads, ff)[0] == Gene(ATTENTION, hidden, hidden, heads, "relu")
  {
    if n == 0 {
    } else {
      BlocksHeads(n - 1, hidden, heads, ff);
    }
  }

  /** The blueprint is valid exactly when it has a layer and its heads divide the hidden width. */
  lemma SimpleTransformerValidIff(n: nat, hidden: int, heads: int, ff: int)
    ensures Valid(Blocks(n, hidden, heads, ff)) <==> n > 0 && HeadsDivide(ATTENTION, hidden, heads)
  {
    BlocksChain(n, hidden, heads, ff);
    BlocksHeads(n, hidden, heads, ff);
    ChainedIff(Blocks(n, hidden, heads, ff));
  }
}
