/** Committing a run and forking the result: the stage store and the overlay together. */
module Fork {
  import opened Wrappers
  import opened Bytes
  import opened StageForest
  import opened Overlay
  import StageTheorems

  /** The layer trees of a chain, oldest first. `image` reads the `upper` tree of a scratch
      image's bytes. */
  function ChainTrees(layers: map<Id, Bytes>, image: Bytes -> Layer, chain: seq<Id>): (trees: seq<Layer>)
    requires forall i :: 0 <= i < |chain| ==> chain[i] in layers
    ensures |trees| == |chain|
  {
    seq(|chain|, i requires 0 <= i < |chain| => image(layers[chain[i]]))
  }

  /** The lower directories a fork of the stage at the end of `chain` is given. */
  function Lowers(layers: map<Id, Bytes>, image: Bytes -> Layer, base: Layer, chain: seq<Id>): seq<Layer>
    requires forall i :: 0 <= i < |chain| ==> chain[i] in layers
  {
    Reverse([base] + ChainTrees(layers, image, chain))
  }

  lemma StoredChainHasLayers(naming: Naming, s: Store, id: Id)
    requires StageTheorems.Inv(naming, s) && id in s.metas
    ensures forall i :: 0 <= i < |s.metas[id].chain| ==> s.metas[id].chain[i] in s.metas && s.metas[id].chain[i] in s.layers
  {
    var m := s.metas[id];
    assert StageTheorems.WellFormed(s.metas, id);
    forall i | 0 <= i < |m.chain|
      ensures m.chain[i] in s.metas
    {
      assert StageTheorems.LinkAt(s.metas, m.chain, m.base.flavor, i);
    }
  }

  lemma ParentChainHasLayers(naming: Naming, s: Store, op: Op)
    requires StageTheorems.Inv(naming, s) && op.Commit? && ParentChain(s.metas, op).Ok?
    ensures var chain := ParentChain(s.metas, op).value;
            forall i :: 0 <= i < |chain| ==> chain[i] in s.metas && chain[i] in s.layers
  {
    if op.parent.Some? {
      StoredChainHasLayers(naming, s, op.parent.value);
    }
  }

  lemma OneMoreTree(before: map<Id, Bytes>, after: map<Id, Bytes>, image: Bytes -> Layer, base: Layer, chain: seq<Id>, id: Id)
    requires id in after
    requires forall i :: 0 <= i < |chain| ==> chain[i] in before && chain[i] in after && after[chain[i]] == before[chain[i]]
    ensures (forall i :: 0 <= i < |chain + [id]| ==> (chain + [id])[i] in after)
            && Lowers(after, image, base, chain + [id]) == [image(after[id])] + Lowers(before, image, base, chain)
  {
    var older, newer := [base] + ChainTrees(before, image, chain), [base] + ChainTrees(after, image, chain + [id]);
    assert newer[..|newer| - 1] == older;
  }

  predicate HasLayers(layers: map<Id, Bytes>, chain: seq<Id>) {
    forall i :: 0 <= i < |chain| ==> chain[i] in layers
  }

  /** A fork of the stage at the end of `chain` sees at `p` what a run over `parentChain` with
      the given upper directory saw, and that is the replay of the stages' changes over the base
      in commit order. */
  ghost predicate ForkShows(before: map<Id, Bytes>, parentChain: seq<Id>, upper: Layer,
                            after: map<Id, Bytes>, chain: seq<Id>, image: Bytes -> Layer, base: Layer, p: Path) {
    && HasLayers(before, parentChain) && HasLayers(after, chain)
    && View([FRESH_UPPER] + Lowers(after, image, base, chain), p) == View([upper] + Lowers(before, image, base, parentChain), p)
    && View(Lowers(after, image, base, chain), p) == Replay([base] + ChainTrees(after, image, chain))(p)
  }

  lemma StackedForkShows(before: map<Id, Bytes>, parentChain: seq<Id>, id: Id, content: Bytes, image: Bytes -> Layer, base: Layer, p: Path)
    requires HasLayers(before, parentChain) && id !in parentChain && IsTree(base) && forall c :: IsTree(image(c))
    ensures ForkShows(before, parentChain, image(content), before[id := content], parentChain + [id], image, base, p)
  {
    var after := before[id := content];
    OneMoreTree(before, after, image, base, parentChain, id);
    ReversedTrees([base] + ChainTrees(before, image, parentChain));
    ForkShowsTheRun(Lowers(before, image, base, parentChain), image(content), p);
    ViewIsReplay([base] + ChainTrees(after, image, parentChain + [id]), p);
  }

  lemma CommitStacks(naming: Naming, s: Store, op: Op)
    requires StageTheorems.Inv(naming, s) && op.Commit?
    requires StageIdFor(naming, op.content) !in s.metas && Committed(naming, s, op).1.Ok?
    ensures ParentChain(s.metas, op).Ok?
    ensures var (after, stage), chain, id := Committed(naming, s, op), ParentChain(s.metas, op).value, StageIdFor(naming, op.content);
            && stage.value.chain == chain + [id] && after.layers == s.layers[id := op.content]
            && HasLayers(s.layers, chain) && id !in chain
  {
    ParentChainHasLayers(naming, s, op);
  }

  /** A run over a parent's chain ends with an upper directory, its scratch is committed, and the
      new stage is forked: the fork shows the run. */
  lemma ForkOfACommitShowsTheRun(naming: Naming, s: Store, op: Op, image: Bytes -> Layer, base: Layer, p: Path)
    requires StageTheorems.Inv(naming, s) && op.Commit? && IsTree(base) && forall c :: IsTree(image(c))
    requires StageIdFor(naming, op.content) !in s.metas && Committed(naming, s, op).1.Ok?
    ensures ParentChain(s.metas, op).Ok?
    ensures var (after, stage) := Committed(naming, s, op);
            ForkShows(s.layers, ParentChain(s.metas, op).value, image(op.content), after.layers, stage.value.chain, image, base, p)
  {
    CommitStacks(naming, s, op);
    StackedForkShows(s.layers, ParentChain(s.metas, op).value, StageIdFor(naming, op.content), op.content, image, base, p);
  }

  /** What shows at a path under an upper directory: its own entry, or what it leaves of the
      merged lower ones. */
  lemma UnderUpper(upper: Layer, lower: seq<Layer>, p: Path)
    requires IsTree(upper) && AreTrees(lower)
    ensures View([upper] + lower, p) ==
              if p in upper then SeenAs(upper[p])
              else match Origin(upper, p) case None => None case Some(from) => View(lower, from)
  {
    LookupAgrees([upper] + lower, p);
    assert ([upper] + lower)[1..] == lower;
    if Origin(upper, p).Some? {
      LookupAgrees(lower, Origin(upper, p).value);
    }
  }

  lemma LowersAreTrees(layers: map<Id, Bytes>, image: Bytes -> Layer, base: Layer, chain: seq<Id>)
    requires HasLayers(layers, chain) && IsTree(base) && forall c :: IsTree(image(c))
    ensures AreTrees(Lowers(layers, image, base, chain))
  {
    ReversedTrees([base] + ChainTrees(layers, image, chain));
  }

  /** The upper directory decides `p` itself, or the two stacks below it agree where it looks
      through. */
  ghost predicate AgreeUnder(upper: Layer, a: seq<Layer>, b: seq<Layer>, p: Path) {
    p in upper || match Origin(upper, p) case None => true case Some(from) => View(a, from) == View(b, from)
  }

  /** A fork of the stage at the end of `chain` shows at `p` what a run over the chain `now` with
      the given upper directory ended with. */
  ghost predicate ForkAgrees(layers: map<Id, Bytes>, chain: seq<Id>, upper: Layer, now: seq<Id>, image: Bytes -> Layer, base: Layer, p: Path)
    requires HasLayers(layers, chain) && HasLayers(layers, now)
  {
    View([FRESH_UPPER] + Lowers(layers, image, base, chain), p) == View([upper] + Lowers(layers, image, base, now), p)
  }

  /** Forking a stage shows what a run over another chain with the same upper directory ended
      with, exactly where the two chains agree under that directory. */
  lemma ForkOverAnotherChain(layers: map<Id, Bytes>, older: seq<Id>, id: Id, now: seq<Id>, image: Bytes -> Layer, base: Layer, p: Path)
    requires HasLayers(layers, older) && HasLayers(layers, now) && id in layers
    requires IsTree(base) && forall c :: IsTree(image(c))
    ensures HasLayers(layers, older + [id])
    ensures ForkAgrees(layers, older + [id], image(layers[id]), now, image, base, p) <==>
              AgreeUnder(image(layers[id]), Lowers(layers, image, base, older), Lowers(layers, image, base, now), p)
  {
    var upper := image(layers[id]);
    OneMoreTree(layers, layers, image, base, older, id);
    LowersAreTrees(layers, image, base, older);
    LowersAreTrees(layers, image, base, now);
    ForkShowsTheRun(Lowers(layers, image, base, older), upper, p);
    UnderUpper(upper, Lowers(layers, image, base, older), p);
    UnderUpper(upper, Lowers(layers, image, base, now), p);
  }

  function NamedChain(metas: Metas, op: Op): seq<Id>
    requires op.Commit? && (op.parent.None? || op.parent.value in metas)
  {
    if op.parent.None? then [] else metas[op.parent.value].chain
  }

  lemma RecommitIsOld(naming: Naming, s: Store, op: Op)
    requires op.Commit? && Recommits(naming, s.metas, op)
    ensures Committed(naming, s, op) == (s, Ok(s.metas[StageIdFor(naming, op.content)]))
  {
  }

  /** The chain of a stored stage is its parents' and its own id, all with layers. */
  lemma StoredChainEnds(naming: Naming, s: Store, id: Id)
    requires StageTheorems.Inv(naming, s) && id in s.metas
    ensures var chain := s.metas[id].chain;
            && chain != [] && chain == chain[..|chain| - 1] + [id]
            && HasLayers(s.layers, chain) && HasLayers(s.layers, chain[..|chain| - 1])
  {
    StoredChainHasLayers(naming, s, id);
    assert StageTheorems.WellFormed(s.metas, id);
  }

  /** Committing the same bytes under the same label again gives the stage that is there,
      whatever parent is named this time. Its fork shows the run over that parent exactly where
      the stage's own parent chain and the named one agree under what the run changed. */
  lemma RecommitShowsTheRunIff(naming: Naming, s: Store, op: Op, image: Bytes -> Layer, base: Layer, p: Path)
    requires StageTheorems.Inv(naming, s) && op.Commit? && IsTree(base) && forall c :: IsTree(image(c))
    requires Recommits(naming, s.metas, op) && s.layers[StageIdFor(naming, op.content)] == op.content
    requires op.parent.None? || op.parent.value in s.metas
    ensures Committed(naming, s, op) == (s, Ok(s.metas[StageIdFor(naming, op.content)]))
    ensures var chain, now := s.metas[StageIdFor(naming, op.content)].chain, NamedChain(s.metas, op);
            && chain != [] && HasLayers(s.layers, chain) && HasLayers(s.layers, chain[..|chain| - 1]) && HasLayers(s.layers, now)
            && (ForkAgrees(s.layers, chain, image(op.content), now, image, base, p) <==>
                  AgreeUnder(image(op.content), Lowers(s.layers, image, base, chain[..|chain| - 1]), Lowers(s.layers, image, base, now), p))
  {
    var id := StageIdFor(naming, op.content);
    var chain := s.metas[id].chain;
    RecommitIsOld(naming, s, op);
    StoredChainEnds(naming, s, id);
    if op.parent.Some? {
      StoredChainHasLayers(naming, s, op.parent.value);
    }
    ForkOverAnotherChain(s.layers, chain[..|chain| - 1], id, NamedChain(s.metas, op), image, base, p);
  }
}
