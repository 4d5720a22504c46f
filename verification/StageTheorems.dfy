/** What every run of commits and removals keeps true of a stage store. */
module StageTheorems {
  import opened Wrappers
  import opened Bytes
  import opened StageForest
  import Text

  // ------------------------------------------------------------ forest invariant

  /** Element `i` of a chain is a stored stage of the same flavor whose own chain is the chain
      up to it. */
  predicate LinkAt(metas: Metas, chain: seq<Id>, flavor: string, i: nat)
    requires i < |chain|
  {
    && chain[i] in metas
    && metas[chain[i]].chain == chain[..i + 1]
    && metas[chain[i]].base.flavor == flavor
  }

  predicate Linked(metas: Metas, chain: seq<Id>, flavor: string) {
    forall i :: 0 <= i < |chain| ==> LinkAt(metas, chain, flavor, i)
  }

  predicate WellFormed(metas: Metas, id: Id)
    requires id in metas
  {
    var m := metas[id];
    && m.stageId == id
    && 0 < |m.chain| <= MAX_CHAIN_DEPTH
    && m.chain[|m.chain| - 1] == id
    && m.parent == (if |m.chain| == 1 then None else Some(m.chain[|m.chain| - 2]))
    && Linked(metas, m.chain, m.base.flavor)
  }

  predicate IsForest(metas: Metas) {
    forall id :: id in metas ==> WellFormed(metas, id)
  }

  ghost predicate LabelsUnique(metas: Metas) {
    && (forall id :: id in metas ==> !Blank(metas[id].labelText))
    && (forall a, b :: a in metas && b in metas && metas[a].labelText == metas[b].labelText ==> a == b)
  }

  /** Every stage has its layer, whose bytes hash to the stage's id. */
  predicate LayersPresent(naming: Naming, s: Store) {
    forall id :: id in s.metas ==> id in s.layers && StageIdFor(naming, s.layers[id]) == id
  }

  ghost predicate Inv(naming: Naming, s: Store) {
    IsForest(s.metas) && LabelsUnique(s.metas) && LayersPresent(naming, s)
  }

  lemma AddTip(metas: Metas, m: StageMeta, parentChain: seq<Id>)
    requires IsForest(metas) && m.stageId !in metas
    requires m.chain == parentChain + [m.stageId] && |m.chain| <= MAX_CHAIN_DEPTH
    requires m.parent == (if parentChain == [] then None else Some(parentChain[|parentChain| - 1]))
    requires Linked(metas, parentChain, m.base.flavor)
    ensures IsForest(metas[m.stageId := m])
  {
    var after := metas[m.stageId := m];
    forall id | id in after
      ensures WellFormed(after, id)
    {
      if id == m.stageId {
        forall i | 0 <= i < |m.chain|
          ensures LinkAt(after, m.chain, m.base.flavor, i)
        {
          if i < |parentChain| {
            assert LinkAt(metas, parentChain, m.base.flavor, i);
            assert parentChain[..i + 1] == m.chain[..i + 1];
          } else {
            assert m.chain[..i + 1] == m.chain;
          }
        }
      } else {
        assert WellFormed(metas, id);
        forall i | 0 <= i < |metas[id].chain|
          ensures LinkAt(after, metas[id].chain, metas[id].base.flavor, i)
        {
          assert LinkAt(metas, metas[id].chain, metas[id].base.flavor, i);
        }
      }
    }
  }

  lemma DropUnreferenced(metas: Metas, gone: Id)
    requires IsForest(metas) && Referencing(metas, gone) == {}
    ensures IsForest(metas - {gone})
  {
    var after := metas - {gone};
    forall id | id in after
      ensures WellFormed(after, id)
    {
      assert WellFormed(metas, id);
      forall i | 0 <= i < |metas[id].chain|
        ensures LinkAt(after, metas[id].chain, metas[id].base.flavor, i)
      {
        assert LinkAt(metas, metas[id].chain, metas[id].base.flavor, i);
        assert gone !in metas[id].chain by {
          assert id !in Referencing(metas, gone);
        }
      }
    }
  }

  /** The flavor check covers the whole parent chain, so the new layer joins its flavor. */
  lemma AdmittedChain(metas: Metas, op: Op)
    requires op.Commit? && IsForest(metas) && ParentChain(metas, op).Ok?
    ensures Linked(metas, ParentChain(metas, op).value, op.base.flavor)
    ensures op.parent.Some? ==>
              var chain := ParentChain(metas, op).value;
              |chain| > 0 && chain[|chain| - 1] == op.parent.value == metas[op.parent.value].stageId
  {
    if op.parent.Some? {
      var parent := metas[op.parent.value];
      assert WellFormed(metas, op.parent.value);
      ChainVerdictIsTheWorst(metas, parent, op.base, |parent.chain|);
      assert parent.chain[|parent.chain| - 1] == parent.stageId;
      assert CheckBase(parent, op.base) == VerdictOn(metas, parent, op.base, parent.chain[|parent.chain| - 1]);
      assert parent.base.flavor == op.base.flavor;
    }
  }

  lemma {:induction false} CommitKeepsInv(naming: Naming, s: Store, op: Op)
    requires Inv(naming, s) && op.Commit?
    ensures Inv(naming, Committed(naming, s, op).0)
  {
    var id := StageIdFor(naming, op.content);
    var admitted := Admitted(naming, s.metas, op);
    if !Recommits(naming, s.metas, op) && admitted.Ok? && op.fault.NoFault? {
      AdmittedIsTip(naming, s.metas, op);
      AddTip(s.metas, admitted.value, ParentChain(s.metas, op).value);
      FreshLabel(s.metas, admitted.value);
    }
  }

  lemma AdmittedIsTip(naming: Naming, metas: Metas, op: Op)
    requires op.Commit? && IsForest(metas) && Admitted(naming, metas, op).Ok?
    ensures ParentChain(metas, op).Ok?
    ensures var m, parentChain := Admitted(naming, metas, op).value, ParentChain(metas, op).value;
            && m.stageId == StageIdFor(naming, op.content) && m.stageId !in metas
            && m.labelText == op.labelText && !Blank(m.labelText) && Labelled(metas, m.labelText) == {}
            && m.chain == parentChain + [m.stageId] && |m.chain| <= MAX_CHAIN_DEPTH
            && m.parent == (if parentChain == [] then None else Some(parentChain[|parentChain| - 1]))
            && Linked(metas, parentChain, m.base.flavor)
  {
    AdmittedChain(metas, op);
  }

  lemma FreshLabel(metas: Metas, m: StageMeta)
    requires LabelsUnique(metas) && !Blank(m.labelText) && Labelled(metas, m.labelText) == {}
    ensures LabelsUnique(metas[m.stageId := m])
  {
    forall id | id in metas
      ensures metas[id].labelText != m.labelText
    {
      assert id !in Labelled(metas, m.labelText);
    }
  }

  lemma RemoveKeepsInv(naming: Naming, s: Store, op: Op)
    requires Inv(naming, s) && op.Remove?
    ensures Inv(naming, Removed(s, op).0)
  {
    var target := Resolve(s.metas, op.reference);
    if target.Ok? && Referencing(s.metas, target.value) == {} {
      DropUnreferenced(s.metas, target.value);
    }
  }

  lemma {:induction false} RunKeepsInv(naming: Naming, s: Store, ops: seq<Op>)
    requires Inv(naming, s)
    ensures Inv(naming, Run(naming, s, ops))
    decreases |ops|
  {
    if ops != [] {
      RunKeepsInv(naming, s, ops[..|ops| - 1]);
      var op := ops[|ops| - 1];
      if op.Commit? {
        CommitKeepsInv(naming, Run(naming, s, ops[..|ops| - 1]), op);
      } else {
        RemoveKeepsInv(naming, Run(naming, s, ops[..|ops| - 1]), op);
      }
    }
  }

  /** Every store reachable from the empty one is a forest with unique labels and all its
      layers. */
  lemma {:induction false} ReachableStoresAreForests(naming: Naming, ops: seq<Op>)
    ensures Inv(naming, Run(naming, EMPTY, ops))
  {
    RunKeepsInv(naming, EMPTY, ops);
  }

  /** What the forest shape gives for one stage: its chain has no duplicates, and each prefix of
      it is the chain of a stored stage of the same flavor. */
  lemma ChainsHaveNoDuplicates(metas: Metas, id: Id, i: nat, j: nat)
    requires IsForest(metas) && id in metas && i < j < |metas[id].chain|
    ensures metas[id].chain[i] != metas[id].chain[j]
  {
    assert WellFormed(metas, id);
    var m := metas[id];
    assert LinkAt(metas, m.chain, m.base.flavor, i) && LinkAt(metas, m.chain, m.base.flavor, j);
    assert |m.chain[..i + 1]| != |m.chain[..j + 1]|;
  }

  // ------------------------------------------------------------- immutability

  /** An operation leaves every stage it does not remove as it was, whatever ids collide. */
  lemma StagesAreImmutable(naming: Naming, s: Store, op: Op, id: Id)
    requires id in s.metas && id in After(naming, s, op).metas
    ensures After(naming, s, op).metas[id] == s.metas[id]
    ensures op.Commit? && id in s.layers ==>
              id in After(naming, s, op).layers && After(naming, s, op).layers[id] == s.layers[id]
  {
  }

  /** A commit removes nothing, and a successful one leaves its own stage in the store. */
  lemma CommitOnlyAdds(naming: Naming, s: Store, op: Op)
    requires op.Commit?
    ensures var (after, r) := Committed(naming, s, op);
            && s.metas.Keys <= after.metas.Keys <= s.metas.Keys + {StageIdFor(naming, op.content)}
            && (r.Err? ==> after.metas == s.metas)
            && (r.Ok? ==> StageIdFor(naming, op.content) in after.metas
                          && after.metas[StageIdFor(naming, op.content)] == r.value)
  {
  }

  // --------------------------------------------------------------- base stamps

  predicate Agree(metas: Metas, a: Id, b: Id)
    requires a in metas && b in metas
  {
    var p, q := Stamp(metas[a].base), Stamp(metas[b].base);
    p.None? || q.None? || p == q
  }

  /** The stamped stages of one chain all carry one stamp. */
  ghost predicate OneStamp(metas: Metas, chain: seq<Id>) {
    forall i, j :: 0 <= i < |chain| && 0 <= j < |chain| && chain[i] in metas && chain[j] in metas ==>
      Agree(metas, chain[i], chain[j])
  }

  ghost predicate NoSkew(metas: Metas) {
    forall id :: id in metas ==> OneStamp(metas, metas[id].chain)
  }

  lemma AncestorsAgree(metas: Metas, op: Op, k: nat)
    requires op.Commit? && !op.allowBaseSkew && IsForest(metas) && ParentChain(metas, op).Ok?
    requires k < |ParentChain(metas, op).value|
    ensures var a := ParentChain(metas, op).value[k];
            a in metas && (Stamp(metas[a].base).None? || Stamp(op.base).None? || Stamp(metas[a].base) == Stamp(op.base))
  {
    var parent := metas[op.parent.value];
    assert WellFormed(metas, op.parent.value) && LinkAt(metas, parent.chain, parent.base.flavor, k);
    ChainVerdictIsTheWorst(metas, parent, op.base, |parent.chain|);
    assert VerdictOn(metas, parent, op.base, parent.chain[k]) == CheckBase(metas[parent.chain[k]], op.base);
    assert Rank(VerdictOn(metas, parent, op.base, parent.chain[k])) <= 1;
  }

  lemma StackKeepsOneStamp(metas: Metas, m: StageMeta, parentChain: seq<Id>)
    requires m.stageId !in metas && m.chain == parentChain + [m.stageId] && OneStamp(metas, parentChain)
    requires forall k :: 0 <= k < |parentChain| ==>
               parentChain[k] in metas
               && (Stamp(metas[parentChain[k]].base).None? || Stamp(m.base).None? || Stamp(metas[parentChain[k]].base) == Stamp(m.base))
    ensures OneStamp(metas[m.stageId := m], m.chain)
  {
    var after := metas[m.stageId := m];
    forall i, j | 0 <= i < |m.chain| && 0 <= j < |m.chain| && m.chain[i] in after && m.chain[j] in after
      ensures Agree(after, m.chain[i], m.chain[j])
    {
      if i < |parentChain| && j < |parentChain| {
        assert Agree(metas, parentChain[i], parentChain[j]);
      } else if i < |parentChain| {
        assert m.chain[i] == parentChain[i] && m.chain[j] == m.stageId;
      } else if j < |parentChain| {
        assert m.chain[j] == parentChain[j] && m.chain[i] == m.stageId;
      }
    }
  }

  lemma NewStageHasOneStamp(naming: Naming, metas: Metas, op: Op)
    requires IsForest(metas) && NoSkew(metas) && op.Commit? && !op.allowBaseSkew && Admitted(naming, metas, op).Ok?
    ensures var m := Admitted(naming, metas, op).value;
            m.stageId == StageIdFor(naming, op.content) && m.stageId !in metas && OneStamp(metas[m.stageId := m], m.chain)
  {
    AdmittedIsTip(naming, metas, op);
    var parentChain := ParentChain(metas, op).value;
    forall k | 0 <= k < |parentChain|
      ensures parentChain[k] in metas
              && (Stamp(metas[parentChain[k]].base).None? || Stamp(op.base).None? || Stamp(metas[parentChain[k]].base) == Stamp(op.base))
    {
      AncestorsAgree(metas, op, k);
    }
    assert OneStamp(metas, parentChain);
    StackKeepsOneStamp(metas, Admitted(naming, metas, op).value, parentChain);
  }

  lemma CommitKeepsNoSkew(naming: Naming, s: Store, op: Op)
    requires Inv(naming, s) && NoSkew(s.metas) && op.Commit? && !op.allowBaseSkew
    ensures NoSkew(Committed(naming, s, op).0.metas)
  {
    hide NoSkew, OneStamp, IsForest;
    if !Recommits(naming, s.metas, op) && Admitted(naming, s.metas, op).Ok? && op.fault.NoFault? {
      NewStageHasOneStamp(naming, s.metas, op);
      OthersKeepOneStamp(s.metas, Admitted(naming, s.metas, op).value);
    }
  }

  lemma OthersKeepOneStamp(metas: Metas, m: StageMeta)
    requires IsForest(metas) && NoSkew(metas) && m.stageId !in metas
    requires OneStamp(metas[m.stageId := m], m.chain)
    ensures NoSkew(metas[m.stageId := m])
  {
    var after := metas[m.stageId := m];
    forall id | id in after
      ensures OneStamp(after, after[id].chain)
    {
      if id != m.stageId {
        var chain := metas[id].chain;
        assert WellFormed(metas, id) && OneStamp(metas, chain);
        forall i, j | 0 <= i < |chain| && 0 <= j < |chain| && chain[i] in after && chain[j] in after
          ensures Agree(after, chain[i], chain[j])
        {
          assert LinkAt(metas, chain, metas[id].base.flavor, i) && LinkAt(metas, chain, metas[id].base.flavor, j);
          assert Agree(metas, chain[i], chain[j]);
        }
      }
    }
  }

  lemma RemoveKeepsNoSkew(metas: Metas, gone: Id)
    requires NoSkew(metas)
    ensures NoSkew(metas - {gone})
  {
    forall id | id in metas - {gone}
      ensures OneStamp(metas - {gone}, metas[id].chain)
    {
      var chain := metas[id].chain;
      assert OneStamp(metas, chain);
      forall i, j | 0 <= i < |chain| && 0 <= j < |chain| && chain[i] in metas - {gone} && chain[j] in metas - {gone}
        ensures Agree(metas - {gone}, chain[i], chain[j])
      {
        assert Agree(metas, chain[i], chain[j]);
      }
    }
  }

  predicate WithoutSkew(ops: seq<Op>) {
    forall i :: 0 <= i < |ops| && ops[i].Commit? ==> !ops[i].allowBaseSkew
  }

  /** In every store reachable without the opt-in, the stamped stages of a chain share one
      stamp. */
  lemma {:induction false} ReachableWithoutSkew(naming: Naming, ops: seq<Op>)
    requires WithoutSkew(ops)
    ensures NoSkew(Run(naming, EMPTY, ops).metas)
    decreases |ops|
  {
    if ops != [] {
      var before, op := Run(naming, EMPTY, ops[..|ops| - 1]), ops[|ops| - 1];
      ReachableWithoutSkew(naming, ops[..|ops| - 1]);
      ReachableStoresAreForests(naming, ops[..|ops| - 1]);
      if op.Commit? {
        CommitKeepsNoSkew(naming, before, op);
      } else if Removed(before, op).1.Ok? {
        RemoveKeepsNoSkew(before.metas, Resolve(before.metas, op.reference).value);
      }
    }
  }

  /** A stale ancestor always shows: the verdict on a stored stage is a refusal whenever any
      stage of its chain is stamped for another build, even if the stage itself is unstamped. */
  lemma StaleAncestorIsRefused(metas: Metas, id: Id, current: BaseId, i: nat)
    requires IsForest(metas) && id in metas && i < |metas[id].chain| && metas[id].chain[i] in metas
    requires var a := metas[metas[id].chain[i]];
             Stamp(a.base).Some? && Stamp(current).Some? && Stamp(a.base) != Stamp(current)
    ensures Rank(ChainVerdict(metas, metas[id], current)) >= 2
  {
    var m := metas[id];
    assert WellFormed(metas, id) && LinkAt(metas, m.chain, m.base.flavor, i);
    ChainVerdictIsTheWorst(metas, m, current, |m.chain|);
    assert VerdictOn(metas, m, current, m.chain[i]) == CheckBase(metas[m.chain[i]], current);
  }

  /** Nothing is recorded but blanks, or the image in use is recorded under the same text, blanks
      around it apart. */
  predicate SameImage(recorded: BaseId, current: BaseId) {
    || recorded.sha256.None? || Text.Trim(recorded.sha256.value) == ""
    || (current.sha256.Some? && Text.Trim(recorded.sha256.value) == Text.Trim(current.sha256.value))
  }

  /** Both are recorded, and differ. */
  predicate OtherImage(recorded: BaseId, current: BaseId) {
    && recorded.sha256.Some? && Text.Trim(recorded.sha256.value) != ""
    && current.sha256.Some? && Text.Trim(current.sha256.value) != ""
    && Text.Trim(recorded.sha256.value) != Text.Trim(current.sha256.value)
  }

  /** The verdict on one stage, by flavors and stamps. */
  lemma VerdictOnOne(stage: StageMeta, current: BaseId)
    ensures CheckBase(stage, current) == Compatible <==> stage.base.flavor == current.flavor && SameImage(stage.base, current)
    ensures CheckBase(stage, current) == RebuiltBase(stage.stageId) <==>
              stage.base.flavor == current.flavor && OtherImage(stage.base, current)
    ensures CheckBase(stage, current) == Unverifiable(stage.stageId) <==>
              stage.base.flavor == current.flavor && !SameImage(stage.base, current) && !OtherImage(stage.base, current)
    ensures CheckBase(stage, current) == WrongFlavor(stage.stageId) <==> stage.base.flavor != current.flavor
  {
  }

  lemma ChainVerdicts(metas: Metas, id: Id, current: BaseId)
    requires IsForest(metas) && id in metas
    ensures forall i :: 0 <= i < |metas[id].chain| ==>
              && metas[id].chain[i] in metas && metas[metas[id].chain[i]].base.flavor == metas[id].base.flavor
              && metas[metas[id].chain[i]].stageId == metas[id].chain[i]
              && VerdictOn(metas, metas[id], current, metas[id].chain[i]) == CheckBase(metas[metas[id].chain[i]], current)
  {
    var m := metas[id];
    assert WellFormed(metas, id);
    forall i | 0 <= i < |m.chain|
      ensures m.chain[i] in metas && metas[m.chain[i]].base.flavor == m.base.flavor && metas[m.chain[i]].stageId == m.chain[i]
      ensures VerdictOn(metas, m, current, m.chain[i]) == CheckBase(metas[m.chain[i]], current)
    {
      assert LinkAt(metas, m.chain, m.base.flavor, i) && WellFormed(metas, m.chain[i]);
    }
  }

  /** A stored chain is accepted exactly when every stage in it was built on the flavor in use and
      on its image, or has no image recorded. */
  lemma AcceptedExactlyWhenAllCompatible(metas: Metas, id: Id, current: BaseId)
    requires IsForest(metas) && id in metas
    ensures ChainVerdict(metas, metas[id], current) == Compatible <==>
              forall i :: 0 <= i < |metas[id].chain| ==>
                && metas[id].chain[i] in metas
                && metas[metas[id].chain[i]].base.flavor == current.flavor
                && SameImage(metas[metas[id].chain[i]].base, current)
  {
    var m := metas[id];
    ChainVerdictIsTheWorst(metas, m, current, |m.chain|);
    ChainVerdicts(metas, id, current);
    forall i | 0 <= i < |m.chain|
      ensures CheckBase(metas[m.chain[i]], current) == Compatible <==>
                metas[m.chain[i]].base.flavor == current.flavor && SameImage(metas[m.chain[i]].base, current)
    {
      VerdictOnOne(metas[m.chain[i]], current);
    }
  }

  /** Some stage of the chain is stamped for another image than the one in use. */
  ghost predicate HasOtherImage(metas: Metas, chain: seq<Id>, current: BaseId) {
    exists i :: 0 <= i < |chain| && chain[i] in metas && OtherImage(metas[chain[i]].base, current)
  }

  /** A fork is refused exactly for another flavor, or, without the opt-in, for another image. */
  lemma RefusedExactlyWhen(metas: Metas, id: Id, current: BaseId)
    requires IsForest(metas) && id in metas
    ensures ChainVerdict(metas, metas[id], current).WrongFlavor? <==> metas[id].base.flavor != current.flavor
    ensures ChainVerdict(metas, metas[id], current).RebuiltBase? <==>
              metas[id].base.flavor == current.flavor && HasOtherImage(metas, metas[id].chain, current)
  {
    var m := metas[id];
    ChainVerdictIsTheWorst(metas, m, current, |m.chain|);
    ChainVerdicts(metas, id, current);
    assert WellFormed(metas, id);
    forall i | 0 <= i < |m.chain|
      ensures CheckBase(metas[m.chain[i]], current).WrongFlavor? <==> m.base.flavor != current.flavor
      ensures CheckBase(metas[m.chain[i]], current).RebuiltBase? <==>
                m.base.flavor == current.flavor && OtherImage(metas[m.chain[i]].base, current)
    {
      VerdictOnOne(metas[m.chain[i]], current);
    }
    RefusedByRank(metas, m, current);
  }

  lemma RefusedByRank(metas: Metas, m: StageMeta, current: BaseId)
    ensures ChainVerdict(metas, m, current).WrongFlavor? <==>
              exists i :: 0 <= i < |m.chain| && VerdictOn(metas, m, current, m.chain[i]).WrongFlavor?
    ensures ChainVerdict(metas, m, current).RebuiltBase? <==>
              && (exists i :: 0 <= i < |m.chain| && VerdictOn(metas, m, current, m.chain[i]).RebuiltBase?)
              && !(exists i :: 0 <= i < |m.chain| && VerdictOn(metas, m, current, m.chain[i]).WrongFlavor?)
  {
    ChainVerdictIsTheWorst(metas, m, current, |m.chain|);
  }

  // ----------------------------------------------------------- when a commit succeeds

  /** What a commit's parent has to be: stored, of the same flavor, with room above it, and on no
      other image unless that is opted into. */
  ghost predicate ParentFits(metas: Metas, op: Op)
    requires op.Commit?
  {
    op.parent.Some? ==>
      && op.parent.value in metas
      && metas[op.parent.value].base.flavor == op.base.flavor
      && |metas[op.parent.value].chain| < 10
      && (op.allowBaseSkew || !HasOtherImage(metas, metas[op.parent.value].chain, op.base))
  }

  lemma ParentFitsIff(metas: Metas, op: Op)
    requires op.Commit? && IsForest(metas)
    ensures ParentFits(metas, op) <==> ParentChain(metas, op).Ok? && |ParentChain(metas, op).value| < MAX_CHAIN_DEPTH
    ensures ParentFits(metas, op) ==>
              ParentChain(metas, op).value == if op.parent.None? then [] else metas[op.parent.value].chain
  {
    if op.parent.Some? && op.parent.value in metas {
      RefusedExactlyWhen(metas, op.parent.value, op.base);
    }
  }

  predicate HasLabel(metas: Metas, text: string) {
    exists id :: id in metas && metas[id].labelText == text
  }

  lemma LabelledIff(metas: Metas, text: string)
    ensures Labelled(metas, text) != {} <==> HasLabel(metas, text)
    ensures forall id :: id in Labelled(metas, text) <==> id in metas && metas[id].labelText == text
  {
    if HasLabel(metas, text) {
      var id :| id in metas && metas[id].labelText == text;
      assert id in Labelled(metas, text);
    }
  }

  /** A commit succeeds exactly when its label is not blank and either the same bytes are there under
      that label, or neither is taken, its parent fits and nothing fails. What it then adds. */
  lemma CommitSucceedsIff(naming: Naming, s: Store, op: Op)
    requires Inv(naming, s) && op.Commit?
    ensures var id, (after, r) := StageIdFor(naming, op.content), Committed(naming, s, op);
            && id == "st-" + naming.digest(op.content)
            && (r.Ok? <==>
                  && !Blank(op.labelText)
                  && (|| (id in s.metas && s.metas[id].labelText == op.labelText)
                      || (!HasLabel(s.metas, op.labelText) && id !in s.metas && ParentFits(s.metas, op) && op.fault.NoFault?)))
            && (r.Ok? && id in s.metas ==> after == s && r.value == s.metas[id])
            && (r.Ok? && id !in s.metas ==>
                  && after == Store(s.metas[id := r.value], s.layers[id := op.content])
                  && r.value.stageId == id && r.value.labelText == op.labelText && r.value.base == op.base
                  && r.value.parent == op.parent
                  && r.value.chain == (if op.parent.None? then [] else s.metas[op.parent.value].chain) + [id])
  {
    ParentFitsIff(s.metas, op);
    if op.parent.Some? && op.parent.value in s.metas {
      assert WellFormed(s.metas, op.parent.value);
    }
    LabelledIff(s.metas, op.labelText);
  }

  /** Why a parent does not do. */
  lemma ParentFailsFor(metas: Metas, op: Op)
    requires op.Commit? && IsForest(metas) && op.parent.Some?
    ensures var r := ParentChain(metas, op);
            if op.parent.value !in metas then r == Err(NoParent)
            else if metas[op.parent.value].base.flavor != op.base.flavor then
              r.Err? && r.error.Refused? && r.error.verdict.WrongFlavor?
            else if !op.allowBaseSkew && HasOtherImage(metas, metas[op.parent.value].chain, op.base) then
              r.Err? && r.error.Refused? && r.error.verdict.RebuiltBase?
            else r == Ok(metas[op.parent.value].chain)
  {
    if op.parent.value in metas {
      RefusedExactlyWhen(metas, op.parent.value, op.base);
      hide ChainVerdict;
    }
  }

  /** Why one fails, in the order the reasons are looked at. */
  lemma CommitFailsFor(naming: Naming, s: Store, op: Op)
    requires Inv(naming, s) && op.Commit? && Committed(naming, s, op).1.Err?
    ensures var id, error := StageIdFor(naming, op.content), Committed(naming, s, op).1.error;
            if Blank(op.labelText) then error == EmptyLabel
            else if HasLabel(s.metas, op.labelText) then
              error.LabelClash? && error.with in s.metas && error.with != id && s.metas[error.with].labelText == op.labelText
            else if id in s.metas then error == SameBytes(id)
            else if op.parent.Some? && op.parent.value !in s.metas then error == NoParent
            else if op.parent.Some? && s.metas[op.parent.value].base.flavor != op.base.flavor then
              error.Refused? && error.verdict.WrongFlavor?
            else if op.parent.Some? && !op.allowBaseSkew && HasOtherImage(s.metas, s.metas[op.parent.value].chain, op.base) then
              error.Refused? && error.verdict.RebuiltBase?
            else if op.parent.Some? && |s.metas[op.parent.value].chain| >= MAX_CHAIN_DEPTH then
              error == TooDeep(|s.metas[op.parent.value].chain| + 1)
            else error == Io
  {
    LabelledIff(s.metas, op.labelText);
    if op.parent.Some? {
      ParentFailsFor(s.metas, op);
      hide ParentChain;
    }
    hide Inv, HasOtherImage, Labelled, HasLabel;
  }

  // ----------------------------------------------------------- stable references

  /** The stage survives every step of the run. */
  ghost predicate Keeps(naming: Naming, s: Store, ops: seq<Op>, id: Id)
    decreases |ops|
  {
    && id in s.metas
    && (ops == [] || (Keeps(naming, s, ops[..|ops| - 1], id) && id in Run(naming, s, ops).metas))
  }

  lemma {:induction false} KeptUnchanged(naming: Naming, s: Store, ops: seq<Op>, id: Id)
    requires Keeps(naming, s, ops, id)
    ensures id in Run(naming, s, ops).metas && Run(naming, s, ops).metas[id] == s.metas[id]
    decreases |ops|
  {
    if ops != [] {
      KeptUnchanged(naming, s, ops[..|ops| - 1], id);
      StagesAreImmutable(naming, Run(naming, s, ops[..|ops| - 1]), ops[|ops| - 1], id);
    }
  }

  lemma IdNotBlank(naming: Naming, content: Bytes)
    ensures !Blank(StageIdFor(naming, content))
  {
    var id := StageIdFor(naming, content);
    Text.TrimStartBares(id);
    assert id[0] == 's';
    Text.TrimEndBares(Text.TrimStart(id));
    assert Text.TrimStart(id) == id;
    TrimmedNotEmpty(id);
  }

  /** A text that starts with something visible does not trim away. */
  lemma {:induction false} TrimmedNotEmpty(s: string)
    requires s != "" && !Text.IsWhitespace(s[0])
    ensures Text.TrimEnd(s) != ""
  {
    if |s| > 1 && Text.IsWhitespace(s[|s| - 1]) {
      TrimmedNotEmpty(s[..|s| - 1]);
    }
  }

  /** An id keeps naming its stage for as long as the stage exists. */
  lemma IdsResolveForever(naming: Naming, ops: seq<Op>, id: Id)
    requires id in Run(naming, EMPTY, ops).metas
    ensures Resolve(Run(naming, EMPTY, ops).metas, id) == Ok(id)
  {
    var s := Run(naming, EMPTY, ops);
    ReachableStoresAreForests(naming, ops);
    IdNotBlank(naming, s.layers[id]);
  }

  lemma OnlyLabelled(metas: Metas, id: Id)
    requires LabelsUnique(metas) && id in metas
    ensures Labelled(metas, metas[id].labelText) == {id}
  {
  }

  /** In a store with unique labels, a stage's label names it exactly when no other stage has
      that text as its id or its vanity name. */
  lemma LabelResolvesIff(metas: Metas, id: Id)
    requires LabelsUnique(metas) && id in metas
    ensures Resolve(metas, metas[id].labelText) == Ok(id) <==>
              && (metas[id].labelText in metas ==> metas[id].labelText == id)
              && (metas[id].labelText in metas || Named(metas, metas[id].labelText) <= {id})
  {
    OnlyLabelled(metas, id);
    var named := Named(metas, metas[id].labelText);
    if named <= {id} {
      assert named == {} || named == {id};
    } else if |named| == 1 {
      assert named == {TheOne(named)};
    }
    if named == {} {
    } else if |named| == 0 {
      assert false;
    }
  }

  /** A label keeps naming its stage over any run that keeps the stage, exactly as long as no
      stage takes the label as its id or vanity name. */
  lemma LabelsStayPut(naming: Naming, earlier: seq<Op>, later: seq<Op>, id: Id)
    requires Keeps(naming, Run(naming, EMPTY, earlier), later, id)
    ensures var s, t := Run(naming, EMPTY, earlier).metas, Run(naming, Run(naming, EMPTY, earlier), later).metas;
            var text := s[id].labelText;
            && id in t && t[id] == s[id]
            && (Resolve(t, text) == Ok(id) <==>
                  && (text in t ==> text == id)
                  && (text in t || Named(t, text) <= {id}))
  {
    ReachableStoresAreForests(naming, earlier);
    RunKeepsInv(naming, Run(naming, EMPTY, earlier), later);
    KeptUnchanged(naming, Run(naming, EMPTY, earlier), later, id);
    LabelResolvesIff(Run(naming, Run(naming, EMPTY, earlier), later).metas, id);
  }

  function RootCommit(content: Bytes, text: string): Op {
    Commit(content, text, None, BaseId("base-alpine", None), false, NoFault)
  }

  lemma RootCommitAdds(naming: Naming, s: Store, content: Bytes, text: string)
    requires !Blank(text) && Labelled(s.metas, text) == {} && StageIdFor(naming, content) !in s.metas
    ensures var id := StageIdFor(naming, content);
            After(naming, s, RootCommit(content, text)).metas
            == s.metas[id := StageMeta(id, UniqueName(naming, id, Names(s.metas)), text, None, [id], BaseId("base-alpine", None))]
  {
    assert [] + [StageIdFor(naming, content)] == [StageIdFor(naming, content)];
  }

  /** It can stop: a stage whose generated name is another stage's label takes the label over. */
  lemma NameShadowsLabel(naming: Naming, a: Bytes, b: Bytes, other: string)
    requires var ia, ib, text := StageIdFor(naming, a), StageIdFor(naming, b), naming.baseName(StageIdFor(naming, b));
             && ia != ib && text !in {ia, ib, other, naming.baseName(ia)}
             && !Blank(text) && !Blank(other)
    ensures var first, second := RootCommit(a, naming.baseName(StageIdFor(naming, b))), RootCommit(b, other);
            && Resolve(Run(naming, EMPTY, [first]).metas, first.labelText) == Ok(StageIdFor(naming, a))
            && Resolve(Run(naming, EMPTY, [first, second]).metas, first.labelText) == Ok(StageIdFor(naming, b))
  {
    var ia, ib, text := StageIdFor(naming, a), StageIdFor(naming, b), naming.baseName(StageIdFor(naming, b));
    var first, second := RootCommit(a, text), RootCommit(b, other);
    assert [first, second][..1] == [first] && [first][..0] == [];
    var one := After(naming, EMPTY, first);
    assert Run(naming, EMPTY, [first]) == one;
    assert Run(naming, EMPTY, [first, second]) == After(naming, one, second);
    RootCommitAdds(naming, EMPTY, a, text);
    assert Labelled(one.metas, text) == {ia} && Named(one.metas, text) == {};
    assert Names(one.metas) == {naming.baseName(ia)};
    RootCommitAdds(naming, one, b, other);
    assert Named(After(naming, one, second).metas, text) == {ib};
  }

  // -------------------------------------------------------------- unique names

  ghost predicate NamesUnique(metas: Metas) {
    forall a, b :: a in metas && b in metas && metas[a].name == metas[b].name ==> a == b
  }

  /** The commit adds a stage although every name it could be given is taken. */
  ghost predicate AddsExhausted(naming: Naming, s: Store, op: Op) {
    && op.Commit? && Committed(naming, s, op).0.metas != s.metas
    && forall j :: 0 <= j <= 9 ==> Candidate(naming, StageIdFor(naming, op.content), j) in Names(s.metas)
  }

  lemma OneMoreNamed(metas: Metas, id: Id, m: StageMeta)
    requires NamesUnique(metas) && id !in metas
    ensures NamesUnique(metas[id := m]) <==> m.name !in Names(metas)
  {
    var after := metas[id := m];
    if m.name in Names(metas) {
      var other :| other in metas && metas[other].name == m.name;
      assert after[other].name == after[id].name && other != id;
    } else {
      assert forall a :: a in metas ==> metas[a].name in Names(metas);
    }
  }

  /** A commit that changes the metadata adds one new stage, under the generated name. */
  lemma AddedStage(naming: Naming, s: Store, op: Op)
    requires op.Commit? && Committed(naming, s, op).0.metas != s.metas
    ensures var id, after := StageIdFor(naming, op.content), Committed(naming, s, op).0.metas;
            && id !in s.metas && id in after && after == s.metas[id := after[id]]
            && after[id].name == UniqueName(naming, id, Names(s.metas))
  {
  }

  lemma StepKeepsNamesUnique(naming: Naming, s: Store, op: Op)
    requires NamesUnique(s.metas)
    ensures NamesUnique(After(naming, s, op).metas) <==> !AddsExhausted(naming, s, op)
  {
    var after := After(naming, s, op).metas;
    if op.Commit? && after != s.metas {
      var id := StageIdFor(naming, op.content);
      AddedStage(naming, s, op);
      NameReusedExactlyWhenAllTaken(naming, id, Names(s.metas));
      OneMoreNamed(s.metas, id, after[id]);
    }
  }

  /** At every point of a run from the empty store no two stages share a name. */
  ghost predicate NamesStayUnique(naming: Naming, ops: seq<Op>)
    decreases |ops|
  {
    && NamesUnique(Run(naming, EMPTY, ops).metas)
    && (ops == [] || NamesStayUnique(naming, ops[..|ops| - 1]))
  }

  /** No commit of the run adds a stage although every name it could be given is taken. */
  ghost predicate NeverExhausted(naming: Naming, ops: seq<Op>)
    decreases |ops|
  {
    ops == [] || (var earlier := ops[..|ops| - 1];
                  NeverExhausted(naming, earlier) && !AddsExhausted(naming, Run(naming, EMPTY, earlier), ops[|ops| - 1]))
  }

  /** Names stay unique throughout a run exactly when none of its commits adds a stage whose ten
      candidate names are all taken. */
  lemma {:induction false} NamesStayUniqueIff(naming: Naming, ops: seq<Op>)
    ensures NamesStayUnique(naming, ops) <==> NeverExhausted(naming, ops)
    decreases |ops|
  {
    if ops != [] {
      var earlier := ops[..|ops| - 1];
      NamesStayUniqueIff(naming, earlier);
      if NamesStayUnique(naming, earlier) {
        StepKeepsNamesUnique(naming, Run(naming, EMPTY, earlier), ops[|ops| - 1]);
      }
    }
  }

  lemma {:induction false} FirstFreeIs(naming: Naming, id: Id, taken: set<string>, k: nat, n: nat)
    requires k <= n <= 9 && (forall j :: k <= j < n ==> Candidate(naming, id, j) in taken)
    requires n == 9 || Candidate(naming, id, n) !in taken
    ensures FirstFree(naming, id, taken, k) == Candidate(naming, id, n)
    decreases n - k
  {
    if k < n {
      FirstFreeIs(naming, id, taken, k + 1, n);
    }
  }

  /** Eleven contents with labels of their own, whose ids share one base name; the last two share
      the hexadecimal tail too. */
  ghost predicate Crowd(naming: Naming, contents: seq<Bytes>, labels: seq<string>) {
    && |contents| == |labels| == 11
    && (forall i, j :: 0 <= i < j < 11 ==> labels[i] != labels[j] && StageIdFor(naming, contents[i]) != StageIdFor(naming, contents[j]))
    && (forall i :: 0 <= i < 11 ==> !Blank(labels[i]))
    && (forall i :: 0 <= i < 11 ==> naming.baseName(StageIdFor(naming, contents[i])) == naming.baseName(StageIdFor(naming, contents[0])))
    && naming.hexOf(StageIdFor(naming, contents[9])) == naming.hexOf(StageIdFor(naming, contents[10]))
    && forall k :: 2 <= k <= 9 ==> naming.hexOf(StageIdFor(naming, contents[9])) != Text.Dec(k)
  }

  function RootCommits(contents: seq<Bytes>, labels: seq<string>): (ops: seq<Op>)
    requires |contents| == |labels|
    ensures |ops| == |contents|
  {
    seq(|contents|, i requires 0 <= i < |contents| => RootCommit(contents[i], labels[i]))
  }

  /** Of a crowd's candidates, an earlier one of one stage is no later one of another. */
  lemma CandidatesDiffer(naming: Naming, contents: seq<Bytes>, labels: seq<string>, i: nat, j: nat)
    requires Crowd(naming, contents, labels) && i < j <= 9
    ensures Candidate(naming, StageIdFor(naming, contents[i]), i) != Candidate(naming, StageIdFor(naming, contents[j]), j)
  {
    var base := naming.baseName(StageIdFor(naming, contents[0]));
    var tail := if j <= 8 then Text.Dec(j + 1) else naming.hexOf(StageIdFor(naming, contents[j]));
    assert Candidate(naming, StageIdFor(naming, contents[j]), j) == base + "-" + tail;
    if i > 0 {
      assert (base + "-" + tail)[|base| + 1..] == tail;
      assert (base + "-" + Text.Dec(i + 1))[|base| + 1..] == Text.Dec(i + 1);
    } else {
      assert |base + "-" + tail| > |base|;
    }
  }

  /** The first stages of the crowd, each with the first candidate left. */
  ghost predicate Crowded(naming: Naming, contents: seq<Bytes>, labels: seq<string>, metas: Metas, n: nat)
    requires n <= |contents| == |labels| && n <= 10
  {
    && (forall id :: id in metas ==> exists i :: 0 <= i < n && id == StageIdFor(naming, contents[i]))
    && (forall i :: 0 <= i < n ==>
          && StageIdFor(naming, contents[i]) in metas
          && metas[StageIdFor(naming, contents[i])].labelText == labels[i]
          && metas[StageIdFor(naming, contents[i])].name == Candidate(naming, StageIdFor(naming, contents[i]), i))
  }

  lemma TakenByTheCrowd(naming: Naming, contents: seq<Bytes>, labels: seq<string>, metas: Metas, n: nat, k: nat)
    requires Crowd(naming, contents, labels) && n <= 10 && Crowded(naming, contents, labels, metas, n) && k < n
    requires k < 9 || n == 10
    ensures Candidate(naming, StageIdFor(naming, contents[n]), k) in Names(metas)
  {
    assert metas[StageIdFor(naming, contents[k])].name == Candidate(naming, StageIdFor(naming, contents[k]), k);
    assert metas[StageIdFor(naming, contents[k])].name in Names(metas);
  }

  lemma FreeInTheCrowd(naming: Naming, contents: seq<Bytes>, labels: seq<string>, metas: Metas, n: nat)
    requires Crowd(naming, contents, labels) && n <= 9 && Crowded(naming, contents, labels, metas, n)
    ensures Candidate(naming, StageIdFor(naming, contents[n]), n) !in Names(metas)
  {
    forall id | id in metas
      ensures metas[id].name != Candidate(naming, StageIdFor(naming, contents[n]), n)
    {
      var i :| 0 <= i < n && id == StageIdFor(naming, contents[i]);
      CandidatesDiffer(naming, contents, labels, i, n);
    }
  }

  /** The next root commit adds a stage under the first candidate that is left. */
  lemma CrowdGrows(naming: Naming, contents: seq<Bytes>, labels: seq<string>, s: Store, n: nat)
    requires Crowd(naming, contents, labels) && n <= 10 && Crowded(naming, contents, labels, s.metas, n)
    ensures var id, after := StageIdFor(naming, contents[n]), After(naming, s, RootCommit(contents[n], labels[n])).metas;
            && id !in s.metas && id in after && after == s.metas[id := after[id]]
            && after[id].labelText == labels[n] && after[id].name == UniqueName(naming, id, Names(s.metas))
  {
    var id := StageIdFor(naming, contents[n]);
    forall other | other in s.metas
      ensures other != id && s.metas[other].labelText != labels[n]
    {
      var i :| 0 <= i < n && other == StageIdFor(naming, contents[i]);
    }
    RootCommitAdds(naming, s, contents[n], labels[n]);
  }

  lemma CrowdedWith(naming: Naming, contents: seq<Bytes>, labels: seq<string>, metas: Metas, m: StageMeta, n: nat)
    requires |contents| == |labels| == 11 && n <= 9 && Crowded(naming, contents, labels, metas, n)
    requires var id := StageIdFor(naming, contents[n]);
             id !in metas && m.labelText == labels[n] && m.name == Candidate(naming, id, n)
    ensures Crowded(naming, contents, labels, metas[StageIdFor(naming, contents[n]) := m], n + 1)
  {
    var after := metas[StageIdFor(naming, contents[n]) := m];
    forall id | id in after
      ensures exists i :: 0 <= i <= n && id == StageIdFor(naming, contents[i])
    {
      if id in metas {
        var i :| 0 <= i < n && id == StageIdFor(naming, contents[i]);
      }
    }
    assert forall i :: 0 <= i < n ==> StageIdFor(naming, contents[i]) in metas;
  }

  lemma CrowdedNext(naming: Naming, contents: seq<Bytes>, labels: seq<string>, s: Store, n: nat)
    requires Crowd(naming, contents, labels) && n <= 9 && Crowded(naming, contents, labels, s.metas, n)
    ensures Crowded(naming, contents, labels, After(naming, s, RootCommit(contents[n], labels[n])).metas, n + 1)
  {
    hide Crowded, After;
    var id, taken := StageIdFor(naming, contents[n]), Names(s.metas);
    forall k | 0 <= k < n
      ensures Candidate(naming, id, k) in taken
    {
      TakenByTheCrowd(naming, contents, labels, s.metas, n, k);
    }
    FreeInTheCrowd(naming, contents, labels, s.metas, n);
    FirstFreeIs(naming, id, taken, 0, n);
    CrowdGrows(naming, contents, labels, s, n);
    CrowdedWith(naming, contents, labels, s.metas, After(naming, s, RootCommit(contents[n], labels[n])).metas[id], n);
  }

  lemma RunOneMore(naming: Naming, ops: seq<Op>, n: nat)
    requires 0 < n <= |ops|
    ensures Run(naming, EMPTY, ops[..n]) == After(naming, Run(naming, EMPTY, ops[..n - 1]), ops[n - 1])
  {
    assert ops[..n][..n - 1] == ops[..n - 1] && ops[..n][n - 1] == ops[n - 1];
  }

  lemma {:induction false} CrowdRuns(naming: Naming, contents: seq<Bytes>, labels: seq<string>, n: nat)
    requires Crowd(naming, contents, labels) && n <= 10
    ensures Crowded(naming, contents, labels, Run(naming, EMPTY, RootCommits(contents, labels)[..n]).metas, n)
  {
    var ops := RootCommits(contents, labels);
    if n > 0 {
      hide Crowded, Crowd, Run, After;
      CrowdRuns(naming, contents, labels, n - 1);
      RunOneMore(naming, ops, n);
      CrowdedNext(naming, contents, labels, Run(naming, EMPTY, ops[..n - 1]), n - 1);
    }
  }

  /** Eleven root commits of such a crowd end with two stages of one name. */
  lemma NamesRunOut(naming: Naming, contents: seq<Bytes>, labels: seq<string>)
    requires Crowd(naming, contents, labels)
    ensures !NeverExhausted(naming, RootCommits(contents, labels))
    ensures !NamesUnique(Run(naming, EMPTY, RootCommits(contents, labels)).metas)
  {
    var ops := RootCommits(contents, labels);
    var s, id := Run(naming, EMPTY, ops[..10]), StageIdFor(naming, contents[10]);
    CrowdRuns(naming, contents, labels, 10);
    CrowdGrows(naming, contents, labels, s, 10);
    forall k | 0 <= k <= 9
      ensures Candidate(naming, id, k) in Names(s.metas)
    {
      TakenByTheCrowd(naming, contents, labels, s.metas, 10, k);
    }
    assert AddsExhausted(naming, s, ops[10]);
    NamesRunOutNow(naming, ops, s, id);
  }

  lemma NamesRunOutNow(naming: Naming, ops: seq<Op>, s: Store, id: Id)
    requires |ops| > 0 && s == Run(naming, EMPTY, ops[..|ops| - 1]) && AddsExhausted(naming, s, ops[|ops| - 1])
    requires id == StageIdFor(naming, ops[|ops| - 1].content) && id !in s.metas
    ensures !NeverExhausted(naming, ops) && !NamesUnique(Run(naming, EMPTY, ops).metas)
  {
    AddedStage(naming, s, ops[|ops| - 1]);
    NameReusedExactlyWhenAllTaken(naming, id, Names(s.metas));
    var after := After(naming, s, ops[|ops| - 1]).metas;
    var other :| other in s.metas && s.metas[other].name == after[id].name;
    assert after[other].name == after[id].name && other != id;
  }

  /** With unique names, a stage's name resolves to it exactly when it is not blank and no other
      stage has it as an id. */
  lemma NameResolvesIff(metas: Metas, id: Id)
    requires NamesUnique(metas) && id in metas
    ensures Resolve(metas, metas[id].name) == Ok(id) <==>
              !Blank(metas[id].name) && (metas[id].name in metas ==> metas[id].name == id)
  {
    assert Named(metas, metas[id].name) == {id};
  }
}
