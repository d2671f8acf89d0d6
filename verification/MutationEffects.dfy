/** What each mutation does to a genome, gene by gene. */
module MutationEffects {
  import opened Genome
  import opened Mutations

  // --- Widening ---

  /** A layer, neither norm nor attention, that puts out a width of its own. */
  predicate Fixes(g: LayerGene, width: int) {
    g.layerType != NORM && g.layerType != ATTENTION && g.outputDim > 0 && g.outputDim != width
  }

  /** The new width gets through to gene `i`. */
  predicate Reached(genes: seq<LayerGene>, position: nat, width: int, i: nat) {
    position < i < |genes| && forall k | position < k < i :: !Fixes(genes[k], width)
  }

  /** The greatest count up to the old one that divides the width; a single head, or none, stays. */
  predicate IsHeadCount(heads: int, old_: int, width: int) {
    if old_ <= 1 then heads == old_
    else 1 <= heads <= old_ && width % heads == 0 && forall m | heads < m <= old_ :: width % m != 0
  }

  /** The gene takes in the new width if it asks for one, and a norm or attention layer puts it out as well. */
  predicate Adapted(now: LayerGene, old_: LayerGene, width: int) {
    && now == old_.(inputDim := now.inputDim, outputDim := now.outputDim, numHeads := now.numHeads)
    && now.inputDim == (if old_.inputDim > 0 then width else old_.inputDim)
    && now.outputDim == (if old_.layerType == NORM || old_.layerType == ATTENTION then width else old_.outputDim)
    && if old_.layerType == ATTENTION then IsHeadCount(now.numHeads, old_.numHeads, width) else now.numHeads == old_.numHeads
  }

  lemma StepAdapts(g: LayerGene, width: int)
    ensures Adapted(WidenStep(g, width).0, g, width)
    ensures WidenStep(g, width).1 <==> Fixes(g, width)
  {
    FixHeadsDivides(width, g.numHeads);
  }

  predicate NoneFixes(genes: seq<LayerGene>, n: nat, width: int)
    requires n <= |genes|
  {
    forall k | 0 <= k < n :: !Fixes(genes[k], width)
  }

  lemma NoneFixesTail(genes: seq<LayerGene>, n: nat, width: int)
    requires 0 < n <= |genes|
    ensures NoneFixes(genes, n, width) <==> !Fixes(genes[0], width) && NoneFixes(genes[1..], n - 1, width)
  {
    assert forall k | 0 < k < n :: genes[k] == genes[1..][k - 1];
    assert forall k | 0 <= k < n - 1 :: genes[1..][k] == genes[k + 1];
  }

  lemma {:induction false} PropagateEffect(genes: seq<LayerGene>, width: int, i: nat)
    requires i < |genes|
    ensures if NoneFixes(genes, i, width)
            then Adapted(Propagate(genes, width)[i], genes[i], width) else Propagate(genes, width)[i] == genes[i]
  {
    StepAdapts(genes[0], width);
    if i > 0 {
      PropagateEffect(genes[1..], width, i - 1);
      NoneFixesTail(genes, i, width);
    }
  }

  lemma ReachedBehind(genes: seq<LayerGene>, position: nat, width: int, i: nat)
    requires position < i < |genes|
    ensures Reached(genes, position, width, i) <==> NoneFixes(genes[position + 1..], i - position - 1, width)
  {
    var tail := genes[position + 1..];
    assert forall k | position < k < i :: genes[k] == tail[k - position - 1];
    assert forall k | 0 <= k < i - position - 1 :: tail[k] == genes[k + position + 1];
  }

  lemma WidenedTail(genes: seq<LayerGene>, position: nat, width: int, i: nat)
    requires position < i < |genes|
    ensures var tail := genes[position + 1..];
      && |Widened(genes, position, width)| == |genes| && tail[i - position - 1] == genes[i]
      && Widened(genes, position, width)[i] == Propagate(tail, width)[i - position - 1]
  {
  }

  lemma WidenedBehind(genes: seq<LayerGene>, position: nat, width: int, i: nat)
    requires position < i < |genes|
    ensures |Widened(genes, position, width)| == |genes|
    ensures if Reached(genes, position, width, i) then Adapted(Widened(genes, position, width)[i], genes[i], width)
            else Widened(genes, position, width)[i] == genes[i]
  {
    WidenedTail(genes, position, width, i);
    PropagateEffect(genes[position + 1..], width, i - position - 1);
    ReachedBehind(genes, position, width, i);
  }

  /** Widening, for every position and width: the gene itself puts out the new width, the genes behind it that the width gets
      through to are adapted, up to and including the first that puts out a width of its own, and nothing else changes. */
  lemma WidenEffect(genes: seq<LayerGene>, position: int, width: int, i: nat)
    requires i < |genes|
    ensures var r := Widened(genes, position, width);
      && |r| == |genes|
      && (if i == position then r[i] == genes[i].(outputDim := width)
          else if 0 <= position && Reached(genes, position, width, i) then Adapted(r[i], genes[i], width)
          else r[i] == genes[i])
  {
    if 0 <= position < i { WidenedBehind(genes, position, width, i); }
  }

  // --- Neighbours ---

  /** The width put out in front of place `pos`: the last positive one, zero where there is none. */
  predicate IsWidthBefore(genes: seq<LayerGene>, pos: nat, w: int)
    requires pos <= |genes|
  {
    if w == 0 then forall k | 0 <= k < pos :: genes[k].outputDim <= 0
    else exists k :: 0 <= k < pos && genes[k].outputDim == w > 0 && forall m | k < m < pos :: genes[m].outputDim <= 0
  }

  lemma WidthBeforeIsCarry(genes: seq<LayerGene>, pos: nat, w: int)
    requires pos <= |genes| && IsWidthBefore(genes, pos, w)
    ensures Carry(0, genes[..pos]) == w
  {
    CarrySource(genes[..pos], 0);
    if w != 0 {
      var k :| 0 <= k < pos && genes[k].outputDim == w > 0 && forall m | k < m < pos :: genes[m].outputDim <= 0;
      assert genes[..pos][k].outputDim > 0;
    }
  }

  /** The first gene from place `pos` on that asks for a width; past the end where there is none. */
  predicate IsConsumer(genes: seq<LayerGene>, pos: nat, at: nat) {
    pos <= at <= |genes| && (at < |genes| ==> genes[at].inputDim > 0) && forall m | pos <= m < at :: genes[m].inputDim <= 0
  }

  lemma ConsumerIsNext(genes: seq<LayerGene>, pos: nat, at: nat)
    requires pos <= |genes| && IsConsumer(genes, pos, at)
    ensures NextConsumer(genes[pos..]) == at - pos
  {
    var tail := genes[pos..];
    assert forall k | 0 <= k < |tail| :: tail[k] == genes[pos + k];
  }

  // --- Adding ---

  /** The added gene takes the widths of its neighbours where it fixes one itself, and then one width for both where it
      fixes only one. */
  predicate IsFitted(now: LayerGene, gene: LayerGene, before: int, asked: int) {
    var i := if before > 0 && gene.inputDim > 0 then before else gene.inputDim;
    var o := if asked > 0 && gene.outputDim > 0 then asked else gene.outputDim;
    && now == gene.(inputDim := now.inputDim, outputDim := now.outputDim)
    && now.inputDim == (if i == 0 && o > 0 then o else i)
    && now.outputDim == (if o == 0 && i > 0 then i else o)
  }

  function Told(g: LayerGene, asks: bool, width: int): LayerGene {
    if asks && width > 0 then g.(inputDim := width) else g
  }

  /** Adding: the genes in front stay, the new gene is fitted and put in, and of the genes behind it only the first that asks
      for a width is told the one the new gene puts out. */
  lemma AddEffect(genes: seq<LayerGene>, position: nat, gene: LayerGene, before: int, at: nat, i: nat)
    requires i < |genes| + 1
    requires var pos := if position < |genes| then position else |genes|;
      IsWidthBefore(genes, pos, before) && IsConsumer(genes, pos, at)
    ensures var r := Added(genes, position, gene);
      var pos := if position < |genes| then position else |genes|;
      && |r| == |genes| + 1
      && (i < pos ==> r[i] == genes[i])
      && (if gene.inputDim > 0 || gene.outputDim > 0
          then IsFitted(r[pos], gene, before, if at < |genes| then genes[at].inputDim else 0) else r[pos] == gene)
      && (i > pos ==> r[i] == Told(genes[i - 1], i - 1 == at && (gene.inputDim > 0 || gene.outputDim > 0), r[pos].outputDim))
  {
    var pos := if position < |genes| then position else |genes|;
    WidthBeforeIsCarry(genes, pos, before);
    ConsumerIsNext(genes, pos, at);
    SetFirstInputAt(genes[pos..], Fitted(gene, before, FirstInput(genes[pos..])).outputDim);
  }

  // --- Removing ---

  lemma ReconciledEffect(tail: seq<LayerGene>, width: int, at: nat, k: nat)
    requires k < |tail| && at == NextConsumer(tail)
    ensures Reconciled(tail, width)[k] ==
      if k == at then tail[k].(inputDim := width, outputDim := if tail[k].layerType == NORM then width else tail[k].outputDim)
      else tail[k]
  {
    ReconciledAt(tail, width);
  }

  function Closed(g: LayerGene, asks: bool, width: int): LayerGene {
    if asks && width > 0 then g.(inputDim := width, outputDim := if g.layerType == NORM then width else g.outputDim) else g
  }

  lemma RemovedBehind(genes: seq<LayerGene>, position: nat, before: int, at: nat, i: nat)
    requires position < |genes| && position <= i < |genes| - 1
    requires before == Carry(0, genes[..position]) && at == NextConsumer(genes[position + 1..])
    ensures |Removed(genes, position)| == |genes| - 1
    ensures Removed(genes, position)[i] == Closed(genes[i + 1], i - position == at, before)
  {
    var tail := genes[position + 1..];
    assert tail[i - position] == genes[i + 1];
    ReconciledEffect(tail, before, at, i - position);
  }

  /** Removing: the gene is gone, the others move up unchanged, except that the first one behind the gap that asks for a width is
      told the one in front of the gap, if there is one, and a norm layer puts it out as well. */
  lemma RemoveEffect(genes: seq<LayerGene>, position: nat, before: int, at: nat, i: nat)
    requires position < |genes| && i < |genes| - 1 && before >= 0
    requires IsWidthBefore(genes, position, before) && IsConsumer(genes, position + 1, at)
    ensures var r := Removed(genes, position);
      && |r| == |genes| - 1
      && r[i] == if i < position then genes[i] else Closed(genes[i + 1], i + 1 == at, before)
  {
    WidthBeforeIsCarry(genes, position, before);
    ConsumerIsNext(genes, position + 1, at);
    if position <= i { RemovedBehind(genes, position, before, at - position - 1, i); }
  }

  /** Outside the genome there is nothing to widen or to remove. */
  lemma OutsideNothing(genes: seq<LayerGene>, position: int, width: int)
    requires position < 0 || position >= |genes|
    ensures Widened(genes, position, width) == genes && Removed(genes, position) == genes
  {
  }
}
