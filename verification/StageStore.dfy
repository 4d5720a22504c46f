/** The stage store as the program runs it: one directory per stage holding a layer and, written
    last, its metadata. Calls are sequential. */
module StageStore {
  import opened Wrappers
  import opened Bytes
  import opened StageForest
  import StageTheorems
  import Text

  class StageStore {
    var metas: Metas               // stage directories with a readable meta.json
    var layers: map<Id, Bytes>     // every layer.ext4
    const naming: Naming

    ghost function Contents(): Store
      reads this
    {
      Store(metas, layers)
    }

    ghost predicate Valid()
      reads this
    {
      StageTheorems.Inv(naming, Contents())
    }

    constructor (naming: Naming)
      ensures Valid() && Contents() == EMPTY && this.naming == naming
    {
      this.naming := naming;
      metas, layers := map[], map[];
    }

    /** The first listed stage with a label. */
    method FindLabelled(text: string) returns (r: Option<Id>)
      ensures r.None? <==> Labelled(metas, text) == {}
      ensures r.Some? ==> r.value in Labelled(metas, text)
    {
      var ids := Labelled(metas, text);
      if ids == {} {
        return None;
      }
      var id :| id in ids;
      return Some(id);
    }

    /** `unique_name`. */
    method UniqueNameFor(id: Id, taken: set<string>) returns (name: string)
      ensures name == UniqueName(naming, id, taken)
    {
      var base := naming.baseName(id);
      if base !in taken {
        return base;
      }
      for n := 2 to 10
        invariant UniqueName(naming, id, taken) == FirstFree(naming, id, taken, n - 1)
      {
        name := base + "-" + Text.Dec(n);
        if name !in taken {
          return;
        }
      }
      name := base + "-" + naming.hexOf(id);
    }

    /** `check_base_chain`. */
    method CheckBaseChain(stage: StageMeta, current: BaseId) returns (worst: BaseCheck)
      ensures worst == ChainVerdict(metas, stage, current)
    {
      worst := Compatible;
      for i := 0 to |stage.chain|
        invariant worst == WorstOf(metas, stage, current, i)
      {
        var id := stage.chain[i];
        var ancestor := stage;
        if id != stage.stageId {
          if id !in metas {
            if Rank(Unverifiable(stage.stageId)) > Rank(worst) {
              worst := Unverifiable(stage.stageId);
            }
            continue;
          }
          ancestor := metas[id];
        }
        var verdict := CheckBase(ancestor, current);
        if Rank(verdict) > Rank(worst) {
          worst := verdict;
        }
      }
    }

    /** The parent's chain, once the whole of it is found compatible. */
    method StackOn(op: Op) returns (r: Result<(Option<Id>, seq<Id>), StoreError>)
      requires op.Commit?
      ensures r.Err? ==> ParentChain(metas, op) == Err(r.error)
      ensures r.Ok? ==> ParentChain(metas, op) == Ok(r.value.1)
      ensures r.Ok? ==> r.value.0 == if op.parent.None? then None else Some(metas[op.parent.value].stageId)
    {
      if op.parent.None? {
        return Ok((None, []));
      }
      var pid := op.parent.value;
      if pid !in metas {
        return Err(NoParent);
      }
      var verdict := CheckBaseChain(metas[pid], op.base);
      match verdict {
        case Compatible =>
        case Unverifiable(_) =>
        case WrongFlavor(_) => return Err(Refused(verdict));
        case RebuiltBase(_) =>
          if !op.allowBaseSkew {
            return Err(Refused(verdict));
          }
      }
      return Ok((Some(metas[pid].stageId), metas[pid].chain));
    }

    /** `commit`. */
    method Commit(op: Op) returns (r: Result<StageMeta, StoreError>)
      requires Valid() && op.Commit?
      modifies this
      ensures Valid() && (Contents(), r) == Committed(naming, old(Contents()), op)
    {
      hide StageTheorems.IsForest, StageTheorems.LayersPresent;
      StageTheorems.CommitKeepsInv(naming, Contents(), op);
      if Blank(op.labelText) {
        return Err(EmptyLabel);
      }
      var id := StageIdFor(naming, op.content);
      var byLabel := FindLabelled(op.labelText);
      if byLabel.Some? {
        assert Labelled(metas, op.labelText) == {byLabel.value};
        if id in metas && id == byLabel.value {
          return Ok(metas[id]);
        }
        return Err(LabelClash(byLabel.value));
      }
      if id in metas {
        return Err(SameBytes(id));
      }
      var stacked := StackOn(op);
      if stacked.Err? {
        return Err(stacked.error);
      }
      var chain := stacked.value.1 + [id];
      if |chain| > MAX_CHAIN_DEPTH {
        return Err(TooDeep(|chain|));
      }
      var name := UniqueNameFor(id, Names(metas));
      if op.fault.BeforeLayer? {
        return Err(Io);
      }
      layers := layers[id := op.content];
      if op.fault.BeforeMeta? {
        return Err(Io);
      }
      var meta := StageMeta(id, name, op.labelText, stacked.value.0, chain, op.base);
      metas := metas[id := meta];
      return Ok(meta);
    }

    /** `remove`. */
    method Remove(op: Op) returns (r: Result<StageMeta, StoreError>)
      requires Valid() && op.Remove?
      modifies this
      ensures Valid() && (Contents(), r) == Removed(old(Contents()), op)
    {
      StageTheorems.RemoveKeepsInv(naming, Contents(), op);
      var target := Resolve(metas, op.reference);
      if target.Err? {
        return Err(target.error);
      }
      var holders := Referencing(metas, target.value);
      if holders != {} {
        return Err(StillReferenced(holders));
      }
      if op.fails {
        return Err(Io);
      }
      r := Ok(metas[target.value]);
      metas, layers := metas - {target.value}, layers - {target.value};
    }

    /** `chain_paths`: the layers to attach, root first. */
    method ChainPaths(stage: StageMeta) returns (r: Result<seq<Id>, StoreError>)
      ensures r.Ok? <==>
                && 0 < |stage.chain| <= MAX_CHAIN_DEPTH
                && stage.chain[|stage.chain| - 1] == stage.stageId
                && forall i :: 0 <= i < |stage.chain| ==> stage.chain[i] in layers
      ensures r.Ok? ==> r.value == stage.chain
    {
      if |stage.chain| == 0 {
        return Err(EmptyChain);
      }
      if |stage.chain| > MAX_CHAIN_DEPTH {
        return Err(TooDeep(|stage.chain|));
      }
      if stage.chain[|stage.chain| - 1] != stage.stageId {
        return Err(MalformedChain);
      }
      var out: seq<Id> := [];
      for i := 0 to |stage.chain|
        invariant out == stage.chain[..i]
        invariant forall j :: 0 <= j < i ==> stage.chain[j] in layers
      {
        var id := stage.chain[i];
        if id !in layers {
          return Err(MissingLayer(id));
        }
        out := out + [id];
      }
      return Ok(out);
    }

    /** On a stored stage it always succeeds. */
    method StoredChainPaths(id: Id) returns (r: Result<seq<Id>, StoreError>)
      requires Valid() && id in metas
      ensures r == Ok(metas[id].chain)
    {
      assert StageTheorems.WellFormed(metas, id);
      forall i | 0 <= i < |metas[id].chain|
        ensures metas[id].chain[i] in layers
      {
        assert StageTheorems.LinkAt(metas, metas[id].chain, metas[id].base.flavor, i);
      }
      r := ChainPaths(metas[id]);
    }
  }
}
