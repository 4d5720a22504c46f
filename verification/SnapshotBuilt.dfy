/** What a completed build leaves, in any run, whatever crashes and errors strike: a snapshot that
    passes, exactly unless the length of its vmstate could not be read. */
module SnapshotBuilt {
  import opened Wrappers
  import opened SnapshotProtocol
  import opened SnapshotSafety
  import opened SnapshotOnce

  /** The call's read of the vmstate length has failed in this run. */
  predicate LengthLost(start: State, events: seq<Event>, t: TaskId) {
    events != []
    && (var before := events[..|events| - 1];
        LengthLost(start, before, t)
        || (events[|events| - 1] == Advance(t, true) && IsBuilding(Run(start, before), t, BothPublished)))
  }

  predicate AfterLength(stage: Stage) {
    stage.Sized? || stage.StateHashed? || stage.BothHashed? || stage.MetaReady? || stage.MetaStaged? || stage.MetaPublished?
  }

  function LengthIn(m: Meta): Option<nat> {
    if m.Recorded? then Some(m.vmstateBytes) else None
  }

  /** The length a build has taken down for its vmstate. */
  function LengthTaken(meta: Option<Meta>, stage: Stage): Option<nat> {
    match stage
    case Sized(len) => Some(len)
    case StateHashed(len, _) => Some(len)
    case BothHashed(len, _, _) => Some(len)
    case MetaReady(m) => LengthIn(m)
    case MetaStaged(m) => LengthIn(m)
    case MetaPublished => if meta.Some? then LengthIn(meta.value) else None
    case _ => None
  }

  /** A build takes down the length of what its VMM dumped, or zero when it cannot read it. */
  predicate PcTakes(s: State, t: TaskId, pc: Pc, lost: bool) {
    match pc
    case Finished(_) => true
    case Building(stage) =>
      if AfterLength(stage) then t in s.dumps && LengthTaken(s.meta, stage) == Some(if lost then 0 else |s.dumps[t].0|)
      else !lost
    case _ => !lost
  }

  predicate TakesLength(s: State, t: TaskId, lost: bool) {
    if t in s.tasks then PcTakes(s, t, s.tasks[t].pc, lost) else !lost
  }

  /** One call moves, the others stay. */
  predicate MovesOnly(s: State, r: State, t: TaskId) {
    t in s.tasks && t in r.tasks && r.tasks == s.tasks[t := r.tasks[t]]
  }

  lemma BuildMovesItself(s: State, t: TaskId, stage: Stage, fails: bool)
    requires t in s.tasks
    ensures MovesOnly(s, BuildStep(s, t, stage, fails), t)
    ensures BuildStep(s, t, stage, fails).tasks[t].pc == Finished(Built) ==> stage.MetaPublished?
  {
    GiveUpMovesItself(s, t);
    match stage {
      case OpenState =>
      case OpenMem =>
      case Writing =>
      case Dumped =>
      case StatePublished =>
      case _ => LateStepMovesItself(s, t, stage, fails);
    }
  }

  lemma GiveUpMovesItself(s: State, t: TaskId)
    requires t in s.tasks
    ensures MovesOnly(s, GiveUp(s, t), t) && GiveUp(s, t).tasks[t].pc == Finished(Failed)
  {
  }

  lemma LateStepMovesItself(s: State, t: TaskId, stage: Stage, fails: bool)
    requires t in s.tasks && (stage.BothPublished? || AfterLength(stage))
    ensures MovesOnly(s, BuildStep(s, t, stage, fails), t)
    ensures BuildStep(s, t, stage, fails).tasks[t].pc == Finished(Built) ==> stage.MetaPublished?
  {
    hide GiveUp;
    GiveUpMovesItself(s, t);
  }

  lemma OutsideMovesItself(s: State, u: TaskId, fails: bool, t: TaskId)
    requires u in s.tasks && !s.tasks[u].pc.Building? && u != t
    ensures var r := AdvanceTask(s, u, fails);
            && (t in r.tasks <==> t in s.tasks) && (t in s.tasks ==> r.tasks[t] == s.tasks[t])
            && r.meta == s.meta && r.dumps == s.dumps
  {
  }

  /** A step of another call: whoever is building is alone in it. */
  lemma OtherStepKeepsLength(s: State, u: TaskId, fails: bool, t: TaskId, lost: bool)
    requires LockInv(s) && TakesLength(s, t, lost) && u in s.tasks && u != t
    ensures TakesLength(AdvanceTask(s, u, fails), t, lost)
  {
    if s.tasks[u].pc.Building? {
      BuildMovesItself(s, u, s.tasks[u].pc.stage, fails);
      assert t in s.tasks ==> !s.tasks[t].pc.Building?;
    } else {
      OutsideMovesItself(s, u, fails, t);
    }
  }

  /** The next stage of a build that has its length. */
  lemma LaterStage(s: State, t: TaskId, stage: Stage, lost: bool)
    requires t in s.tasks && AfterLength(stage) && StageInv(s, t, s.tasks[t].pid, stage) && PcTakes(s, t, Building(stage), lost)
    ensures var r := BuildStep(s, t, stage, false); t in r.tasks && PcTakes(r, t, r.tasks[t].pc, lost)
  {
    match stage {
      case MetaReady(m) => assert BuildStep(s, t, stage, false).tasks[t].pc == Building(MetaStaged(m));
      case MetaStaged(m) => assert BuildStep(s, t, stage, false).meta == Some(m);
      case MetaPublished => assert BuildStep(s, t, stage, false) == Return(s, t, Built);
      case _ => HashingStage(s, t, stage, lost);
    }
  }

  lemma HashingStage(s: State, t: TaskId, stage: Stage, lost: bool)
    requires t in s.tasks && (stage.Sized? || stage.StateHashed? || stage.BothHashed?)
    requires BothHold(s, t) && PcTakes(s, t, Building(stage), lost)
    ensures var r := BuildStep(s, t, stage, false); t in r.tasks && PcTakes(r, t, r.tasks[t].pc, lost)
  {
  }

  /** The next stage of one that has not. */
  lemma EarlierStage(s: State, t: TaskId, stage: Stage, fails: bool)
    requires t in s.tasks && !AfterLength(stage) && StageInv(s, t, s.tasks[t].pid, stage) && (fails ==> stage.BothPublished?)
    ensures var r := BuildStep(s, t, stage, fails); t in r.tasks && PcTakes(r, t, r.tasks[t].pc, fails)
  {
  }

  lemma FailedStage(s: State, t: TaskId, stage: Stage)
    requires t in s.tasks && !stage.BothPublished?
    ensures BuildStep(s, t, stage, true).tasks[t].pc.Finished?
  {
  }

  lemma OwnStepKeepsLength(s: State, t: TaskId, fails: bool, lost: bool)
    requires LockInv(s) && HolderInv(s) && TakesLength(s, t, lost) && t in s.tasks
    ensures TakesLength(AdvanceTask(s, t, fails), t, lost || (fails && s.tasks[t].pc == Building(BothPublished)))
  {
    if s.tasks[t].pc.Building? {
      var stage := s.tasks[t].pc.stage;
      assert s.lock == Some(t) && StageInv(s, t, s.tasks[t].pid, stage);
      if fails && !stage.BothPublished? {
        FailedStage(s, t, stage);
      } else if AfterLength(stage) {
        LaterStage(s, t, stage, lost);
      } else {
        EarlierStage(s, t, stage, fails);
      }
    }
  }

  lemma StepKeepsLength(s: State, e: Event, t: TaskId, lost: bool)
    requires Inv(s) && TakesLength(s, t, lost)
    ensures TakesLength(Step(s, e), t, lost || (e == Advance(t, true) && IsBuilding(s, t, BothPublished)))
  {
    if e.Advance? && e.t in s.tasks {
      if e.t == t {
        OwnStepKeepsLength(s, t, e.fails, lost);
      } else {
        OtherStepKeepsLength(s, e.t, e.fails, t, lost);
      }
    }
  }

  lemma {:induction false} LengthReachable(start: State, events: seq<Event>, t: TaskId)
    requires IsStart(start)
    ensures TakesLength(Run(start, events), t, LengthLost(start, events, t))
  {
    if events != [] {
      var before := events[..|events| - 1];
      LengthReachable(start, before, t);
      Reachable(start, before);
      StepKeepsLength(Run(start, before), events[|events| - 1], t, LengthLost(start, before, t));
    }
  }

  /** A record that has just been put in place fits its files but for the length it gives. */
  lemma {:induction false} PublishedPassesIff(start: State, events: seq<Event>, t: TaskId, level: Integrity)
    requires IsStart(start) && IsBuilding(Run(start, events), t, MetaPublished)
    ensures var s := Run(start, events);
            && s.meta.Some? && s.meta.value.Recorded? && s.meta.value.author == t && t in s.dumps
            && (Passes(s, level) <==> s.meta.value.vmstateBytes == |s.dumps[t].0|)
  {
    Reachable(start, events);
    var s := Run(start, events);
    assert s.lock == Some(t) && StageInv(s, t, s.tasks[t].pid, MetaPublished);
  }

  /** The call returns that it built, in the last step of the run. */
  predicate ReturnsBuilt(start: State, events: seq<Event>, t: TaskId) {
    events != [] && SaysBuilt(Run(start, events), t) && !SaysBuilt(Run(start, events[..|events| - 1]), t)
  }

  lemma OutsideNeverReturnsBuilt(s: State, t: TaskId, fails: bool)
    requires t in s.tasks && !s.tasks[t].pc.Building? && s.tasks[t].pc != Finished(Built)
    ensures NextPc(s, t, fails) != Finished(Built)
  {
  }

  lemma ReturnsAfterPublishing(s: State, e: Event, t: TaskId)
    requires SaysBuilt(Step(s, e), t) && !SaysBuilt(s, t)
    ensures IsBuilding(s, t, MetaPublished) && Step(s, e) == Return(s, t, Built) && !(e == Advance(t, true) && IsBuilding(s, t, BothPublished))
  {
    match e {
      case Advance(u, fails) =>
        if u in s.tasks && s.tasks[u].pc.Building? {
          BuildMovesItself(s, u, s.tasks[u].pc.stage, fails);
        } else if u in s.tasks && u != t {
          OutsideMovesItself(s, u, fails, t);
        } else if u in s.tasks {
          OutsideNeverReturnsBuilt(s, t, fails);
        }
      case _ =>
    }
  }

  lemma ReturnKeepsChecks(s: State, t: TaskId, level: Integrity)
    requires t in s.tasks
    ensures Passes(Return(s, t, Built), level) <==> Passes(s, level)
  {
  }

  /** In any run: a call that returns that it built leaves a snapshot that passes, at either
      strength, exactly when its read of the vmstate length succeeded or the vmstate is empty. */
  lemma {:induction false} BuiltIsUsableIff(start: State, events: seq<Event>, t: TaskId, level: Integrity)
    requires IsStart(start) && ReturnsBuilt(start, events, t)
    ensures t in Run(start, events).dumps
    ensures Passes(Run(start, events), level) <==> !LengthLost(start, events, t) || Run(start, events).dumps[t].0 == []
  {
    var before := events[..|events| - 1];
    ReturnsAfterPublishing(Run(start, before), events[|events| - 1], t);
    ReturnKeepsChecks(Run(start, before), t, level);
    PublishedPassesIff(start, before, t, level);
    LengthReachable(start, before, t);
  }
}
