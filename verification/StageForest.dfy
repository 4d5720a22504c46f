/** The stage store as a value: a map from content ids to metadata beside the layer files, and
    what its operations do to it. Nothing here assumes that different contents have different
    ids. */
module StageForest {
  import opened Wrappers
  import opened Bytes
  import Text

  type Id = string

  const MAX_CHAIN_DEPTH := 10

  datatype BaseId = BaseId(flavor: string, sha256: Option<string>)

  datatype StageMeta = StageMeta(
    stageId: Id, name: string, labelText: string,
    parent: Option<Id>, chain: seq<Id>, base: BaseId)

  type Metas = map<Id, StageMeta>

  datatype Store = Store(metas: Metas, layers: map<Id, Bytes>)

  const EMPTY := Store(map[], map[])

  /** The hash of a layer and the name generator, both unconstrained. */
  datatype Naming = Naming(digest: Bytes -> string, baseName: Id -> string, hexOf: Id -> string)

  function StageIdFor(naming: Naming, content: Bytes): Id {
    "st-" + naming.digest(content)
  }

  datatype StoreError =
    | EmptyLabel | LabelClash(with: Id) | SameBytes(existing: Id)
    | NoParent | Refused(verdict: BaseCheck) | TooDeep(depth: nat)
    | EmptyReference | Ambiguous(ids: set<Id>) | NoMatch | StillReferenced(holders: set<Id>)
    | EmptyChain | MalformedChain | MissingLayer(of: Id)
    | Io

  predicate Blank(s: string) {
    Text.Trim(s) == ""
  }

  // ------------------------------------------------------------- base checking

  /** The offending stage stands for the message the variants carry. */
  datatype BaseCheck = Compatible | Unverifiable(of: Id) | RebuiltBase(of: Id) | WrongFlavor(of: Id)

  function Rank(c: BaseCheck): nat {
    match c
    case Compatible => 0
    case Unverifiable(_) => 1
    case RebuiltBase(_) => 2
    case WrongFlavor(_) => 3
  }

  /** `non_empty`: a content id that is present and not blank, trimmed. */
  function Stamp(base: BaseId): Option<string> {
    if base.sha256.None? || Blank(base.sha256.value) then None else Some(Text.Trim(base.sha256.value))
  }

  /** `check_base`. */
  function CheckBase(stage: StageMeta, current: BaseId): BaseCheck {
    if stage.base.flavor != current.flavor then WrongFlavor(stage.stageId)
    else if Stamp(stage.base).None? then Compatible
    else if Stamp(current).None? then Unverifiable(stage.stageId)
    else if Stamp(stage.base) == Stamp(current) then Compatible
    else RebuiltBase(stage.stageId)
  }

  /** The verdict on one element of `stage`'s chain: the tip as handed over, an ancestor as the
      store has it. */
  function VerdictOn(metas: Metas, stage: StageMeta, current: BaseId, id: Id): BaseCheck {
    if id == stage.stageId then CheckBase(stage, current)
    else if id in metas then CheckBase(metas[id], current)
    else Unverifiable(stage.stageId)
  }

  /** The first of the worst verdicts on the first `k` elements. */
  function WorstOf(metas: Metas, stage: StageMeta, current: BaseId, k: nat): BaseCheck
    requires k <= |stage.chain|
  {
    if k == 0 then Compatible
    else
      var worst := WorstOf(metas, stage, current, k - 1);
      var verdict := VerdictOn(metas, stage, current, stage.chain[k - 1]);
      if Rank(verdict) > Rank(worst) then verdict else worst
  }

  function ChainVerdict(metas: Metas, stage: StageMeta, current: BaseId): BaseCheck {
    WorstOf(metas, stage, current, |stage.chain|)
  }

  /** `check_base_chain` returns the maximum severity over the whole chain, and the first element
      that has it; so it accepts a chain exactly when every element is compatible. */
  lemma {:induction false} ChainVerdictIsTheWorst(metas: Metas, stage: StageMeta, current: BaseId, k: nat)
    requires k <= |stage.chain|
    ensures forall i :: 0 <= i < k ==>
              Rank(VerdictOn(metas, stage, current, stage.chain[i])) <= Rank(WorstOf(metas, stage, current, k))
    ensures WorstOf(metas, stage, current, k) == Compatible <==>
              forall i :: 0 <= i < k ==> VerdictOn(metas, stage, current, stage.chain[i]) == Compatible
    ensures WorstOf(metas, stage, current, k) != Compatible ==>
              exists i :: 0 <= i < k && VerdictOn(metas, stage, current, stage.chain[i]) == WorstOf(metas, stage, current, k)
                          && forall j :: 0 <= j < i ==>
                               Rank(VerdictOn(metas, stage, current, stage.chain[j])) < Rank(WorstOf(metas, stage, current, k))
  {
    if k > 0 {
      ChainVerdictIsTheWorst(metas, stage, current, k - 1);
      var worst := WorstOf(metas, stage, current, k - 1);
      var verdict := VerdictOn(metas, stage, current, stage.chain[k - 1]);
      if Rank(verdict) > Rank(worst) {
        assert VerdictOn(metas, stage, current, stage.chain[k - 1]) == WorstOf(metas, stage, current, k);
      }
    }
  }

  // -------------------------------------------------------------------- names

  /** The names `unique_name` tries, in order. */
  function Candidate(naming: Naming, id: Id, k: nat): string {
    var base := naming.baseName(id);
    if k == 0 then base
    else if k <= 8 then base + "-" + Text.Dec(k + 1)
    else base + "-" + naming.hexOf(id)
  }

  function FirstFree(naming: Naming, id: Id, taken: set<string>, k: nat): string
    requires k <= 9
    decreases 9 - k
  {
    if k == 9 || Candidate(naming, id, k) !in taken then Candidate(naming, id, k)
    else FirstFree(naming, id, taken, k + 1)
  }

  function UniqueName(naming: Naming, id: Id, taken: set<string>): string {
    FirstFree(naming, id, taken, 0)
  }

  lemma {:induction false} FirstFreeIsFree(naming: Naming, id: Id, taken: set<string>, k: nat)
    requires k <= 9
    ensures FirstFree(naming, id, taken, k) in taken <==> forall j :: k <= j <= 9 ==> Candidate(naming, id, j) in taken
    decreases 9 - k
  {
    if k < 9 && Candidate(naming, id, k) in taken {
      FirstFreeIsFree(naming, id, taken, k + 1);
    }
  }

  /** The last candidate is not checked: a name is reused exactly when all ten are taken. */
  lemma NameReusedExactlyWhenAllTaken(naming: Naming, id: Id, taken: set<string>)
    ensures UniqueName(naming, id, taken) in taken <==> forall j :: 0 <= j <= 9 ==> Candidate(naming, id, j) in taken
  {
    FirstFreeIsFree(naming, id, taken, 0);
  }

  function Names(metas: Metas): set<string> {
    set id | id in metas :: metas[id].name
  }

  // --------------------------------------------------------------- references

  function Named(metas: Metas, name: string): set<Id> {
    set id | id in metas && metas[id].name == name
  }

  function Labelled(metas: Metas, labelText: string): set<Id> {
    set id | id in metas && metas[id].labelText == labelText
  }

  function Prefixed(metas: Metas, prefix: string): set<Id> {
    set id | id in metas && Text.StartsWith(metas[id].labelText, prefix)
  }

  lemma OneElement(s: set<Id>, a: Id, b: Id)
    requires |s| == 1 && a in s && b in s
    ensures a == b
  {
    assert |s - {a}| == 0;
  }

  function TheOne(s: set<Id>): (id: Id)
    requires |s| == 1
    ensures s == {id}
  {
    assert s != {};
    assert forall a, b :: a in s && b in s ==> a == b by {
      forall a, b | a in s && b in s
        ensures a == b
      {
        OneElement(s, a, b);
      }
    }
    var id :| id in s;
    id
  }

  /** `resolve`: exact id, then vanity name, then label, then a label prefix that fits one stage. */
  function Resolve(metas: Metas, reference: string): (r: Result<Id, StoreError>)
    ensures r.Ok? ==> r.value in metas
  {
    if Blank(reference) then Err(EmptyReference)
    else if reference in metas then Ok(reference)
    else if |Named(metas, reference)| == 1 then Ok(TheOne(Named(metas, reference)))
    else if |Named(metas, reference)| > 1 then Err(Ambiguous(Named(metas, reference)))
    else if |Labelled(metas, reference)| == 1 then Ok(TheOne(Labelled(metas, reference)))
    else if |Labelled(metas, reference)| > 1 then Err(Ambiguous(Labelled(metas, reference)))
    else if |Prefixed(metas, reference)| == 0 then Err(NoMatch)
    else if |Prefixed(metas, reference)| == 1 then Ok(TheOne(Prefixed(metas, reference)))
    else Err(Ambiguous(Prefixed(metas, reference)))
  }

  /** The stage has the name, the label, or a label that starts with the text; each is tried when no
      stage answers to the one before. */
  predicate Answers(m: StageMeta, reference: string, tier: nat) {
    if tier == 0 then m.name == reference
    else if tier == 1 then m.labelText == reference
    else reference <= m.labelText
  }

  predicate NobodyAnswers(metas: Metas, reference: string, tier: nat) {
    forall id :: id in metas ==> !Answers(metas[id], reference, tier)
  }

  predicate OnlyAnswers(metas: Metas, reference: string, tier: nat, id: Id) {
    id in metas && Answers(metas[id], reference, tier)
    && forall other :: other in metas && Answers(metas[other], reference, tier) ==> other == id
  }

  function Answering(metas: Metas, reference: string, tier: nat): set<Id> {
    set id | id in metas && Answers(metas[id], reference, tier)
  }

  lemma CountAnswers(metas: Metas, reference: string, tier: nat)
    ensures |Answering(metas, reference, tier)| == 0 <==> NobodyAnswers(metas, reference, tier)
    ensures |Answering(metas, reference, tier)| == 1 ==> OnlyAnswers(metas, reference, tier, TheOne(Answering(metas, reference, tier)))
    ensures forall id :: OnlyAnswers(metas, reference, tier, id) ==> Answering(metas, reference, tier) == {id}
  {
    var answering := Answering(metas, reference, tier);
    assert answering == {} <==> NobodyAnswers(metas, reference, tier) by {
      assert forall id :: id in answering <==> id in metas && Answers(metas[id], reference, tier);
    }
    if |answering| == 1 {
      var one := TheOne(answering);
      assert one in answering;
      forall other | other in metas && Answers(metas[other], reference, tier)
        ensures other == one
      {
        assert other in answering;
      }
    }
    forall id | OnlyAnswers(metas, reference, tier, id)
      ensures answering == {id}
    {
      assert forall other :: other in answering <==> other == id;
    }
  }

  /** What a reference resolves to: the stage with that id; failing that, the only one with that
      name; if none has it, the only one with that label; if none has that either, the only one
      whose label starts so. */
  lemma ResolvesIff(metas: Metas, reference: string, id: Id)
    ensures Resolve(metas, reference) == Ok(id) <==>
              && !Blank(reference)
              && (if reference in metas then reference == id
                  else if !NobodyAnswers(metas, reference, 0) then OnlyAnswers(metas, reference, 0, id)
                  else if !NobodyAnswers(metas, reference, 1) then OnlyAnswers(metas, reference, 1, id)
                  else OnlyAnswers(metas, reference, 2, id))
  {
    CountAnswers(metas, reference, 0);
    CountAnswers(metas, reference, 1);
    CountAnswers(metas, reference, 2);
    assert Named(metas, reference) == Answering(metas, reference, 0);
    assert Labelled(metas, reference) == Answering(metas, reference, 1);
    assert Prefixed(metas, reference) == Answering(metas, reference, 2);
  }

  /** Why a reference does not resolve: it is blank, nobody answers to it, or several do where the
      first do. */
  lemma ResolveFailsFor(metas: Metas, reference: string)
    requires Resolve(metas, reference).Err?
    ensures var error := Resolve(metas, reference).error;
            if Blank(reference) then error == EmptyReference
            else
              && reference !in metas
              && if !NobodyAnswers(metas, reference, 0) then IsAmbiguous(metas, reference, 0, error)
                 else if !NobodyAnswers(metas, reference, 1) then IsAmbiguous(metas, reference, 1, error)
                 else if !NobodyAnswers(metas, reference, 2) then IsAmbiguous(metas, reference, 2, error)
                 else error == NoMatch
  {
    CountAnswers(metas, reference, 0);
    CountAnswers(metas, reference, 1);
    CountAnswers(metas, reference, 2);
    assert Named(metas, reference) == Answering(metas, reference, 0);
    assert Labelled(metas, reference) == Answering(metas, reference, 1);
    assert Prefixed(metas, reference) == Answering(metas, reference, 2);
  }

  /** The error lists all that answer, more than one. */
  ghost predicate IsAmbiguous(metas: Metas, reference: string, tier: nat, error: StoreError) {
    && error.Ambiguous? && |error.ids| > 1
    && forall id :: id in error.ids <==> id in metas && Answers(metas[id], reference, tier)
  }

  // --------------------------------------------------------------- operations

  /** Where a commit meets an I/O error (or the process dies): before the layer is in place, or
      between the layer and its metadata. */
  datatype Fault = NoFault | BeforeLayer | BeforeMeta

  datatype Op =
    | Commit(content: Bytes, labelText: string, parent: Option<Id>, base: BaseId, allowBaseSkew: bool, fault: Fault)
    | Remove(reference: string, fails: bool)

  /** The chain a commit appends to: nothing, or its parent's once that is found compatible. */
  function ParentChain(metas: Metas, op: Op): Result<seq<Id>, StoreError>
    requires op.Commit?
  {
    if op.parent.None? then Ok([])
    else if op.parent.value !in metas then Err(NoParent)
    else
      var parent := metas[op.parent.value];
      var verdict := ChainVerdict(metas, parent, op.base);
      if verdict.WrongFlavor? || (verdict.RebuiltBase? && !op.allowBaseSkew) then Err(Refused(verdict))
      else Ok(parent.chain)
  }

  /** What a commit may add, or why it may not. */
  ghost function Admitted(naming: Naming, metas: Metas, op: Op): Result<StageMeta, StoreError>
    requires op.Commit?
  {
    var id := StageIdFor(naming, op.content);
    if Blank(op.labelText) then Err(EmptyLabel)
    else if Labelled(metas, op.labelText) != {} then
      var clash :| clash in Labelled(metas, op.labelText);
      Err(LabelClash(clash))
    else if id in metas then Err(SameBytes(id))
    else
      var parentChain := ParentChain(metas, op);
      if parentChain.Err? then Err(parentChain.error)
      else if |parentChain.value| + 1 > MAX_CHAIN_DEPTH then Err(TooDeep(|parentChain.value| + 1))
      else
        Ok(StageMeta(id, UniqueName(naming, id, Names(metas)), op.labelText,
                     if op.parent.None? then None else Some(metas[op.parent.value].stageId),
                     parentChain.value + [id], op.base))
  }

  /** A re-commit of the same bytes under the same label. */
  predicate Recommits(naming: Naming, metas: Metas, op: Op)
    requires op.Commit?
  {
    !Blank(op.labelText) && StageIdFor(naming, op.content) in Labelled(metas, op.labelText)
  }

  /** `commit`. */
  ghost function Committed(naming: Naming, s: Store, op: Op): (Store, Result<StageMeta, StoreError>)
    requires op.Commit?
  {
    var id := StageIdFor(naming, op.content);
    if Recommits(naming, s.metas, op) then (s, Ok(s.metas[id]))
    else
      var admitted := Admitted(naming, s.metas, op);
      if admitted.Err? then (s, Err(admitted.error))
      else if op.fault.BeforeLayer? then (s, Err(Io))
      else
        var layers := s.layers[id := op.content];
        if op.fault.BeforeMeta? then (Store(s.metas, layers), Err(Io))
        else (Store(s.metas[id := admitted.value], layers), Ok(admitted.value))
  }

  function Referencing(metas: Metas, id: Id): set<Id> {
    set other | other in metas && other != id && id in metas[other].chain
  }

  /** `remove`. */
  function Removed(s: Store, op: Op): (Store, Result<StageMeta, StoreError>)
    requires op.Remove?
  {
    var target := Resolve(s.metas, op.reference);
    if target.Err? then (s, Err(target.error))
    else if Referencing(s.metas, target.value) != {} then
      (s, Err(StillReferenced(Referencing(s.metas, target.value))))
    else if op.fails then (s, Err(Io))
    else (Store(s.metas - {target.value}, s.layers - {target.value}), Ok(s.metas[target.value]))
  }

  ghost function After(naming: Naming, s: Store, op: Op): Store {
    if op.Commit? then Committed(naming, s, op).0 else Removed(s, op).0
  }

  ghost function Run(naming: Naming, s: Store, ops: seq<Op>): Store
    decreases |ops|
  {
    if ops == [] then s else After(naming, Run(naming, s, ops[..|ops| - 1]), ops[|ops| - 1])
  }
}
