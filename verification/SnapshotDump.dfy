/** What a build's dump is, over any run: what its own VMM wrote to the two staging files after the
    build opened them, with nothing left from before. */
module SnapshotDump {
  import opened Wrappers
  import opened Bytes
  import opened SnapshotProtocol
  import opened SnapshotSafety
  import opened SnapshotBuilt

  predicate Opens(s: State, e: Event, t: TaskId, kind: Kind) {
    e == Advance(t, false) && t in s.tasks && s.tasks[t].pc == Building(if kind.VmState? then OpenState else OpenMem)
  }

  predicate WritesTo(s: State, e: Event, t: TaskId, kind: Kind) {
    e.WriteOut? && e.i in s.inodes && s.inodes[e.i].writer == Some(t) && s.inodes[e.i].kind == kind
  }

  /** What the call's VMM has written to a staging file since the call opened it. */
  function Wrote(start: State, events: seq<Event>, t: TaskId, kind: Kind): Bytes {
    if events == [] then []
    else
      var before := events[..|events| - 1];
      WroteNow(Run(start, before), events[|events| - 1], t, kind, Wrote(start, before, t, kind))
  }

  function WroteNow(s: State, e: Event, t: TaskId, kind: Kind, wrote: Bytes): Bytes {
    if Opens(s, e, t, kind) then [] else if WritesTo(s, e, t, kind) then wrote + e.more else wrote
  }

  /** The staging file is open for the call's VMM, with those bytes. */
  predicate Open(s: State, t: TaskId, pid: Pid, kind: Kind, bytes: Bytes) {
    HasStaged(s, pid, kind) && s.inodes[s.staged[(pid, kind)]].writer == Some(t) && s.inodes[s.staged[(pid, kind)]].bytes == bytes
  }

  ghost predicate NoneOpen(s: State, t: TaskId) {
    forall i :: i in s.inodes ==> s.inodes[i].writer != Some(t)
  }

  ghost predicate DumpInv(s: State, t: TaskId, state: Bytes, mem: Bytes) {
    t in s.tasks ==>
      && (s.tasks[t].pc == Building(OpenMem) ==> Open(s, t, s.tasks[t].pid, VmState, state))
      && (s.tasks[t].pc == Building(Writing) ==>
            Open(s, t, s.tasks[t].pid, VmState, state) && Open(s, t, s.tasks[t].pid, MemFile, mem))
      && (t in s.dumps ==> s.dumps[t] == (state, mem) && NoneOpen(s, t))
  }

  lemma OpeningStep(s: State, t: TaskId, kind: Kind, state: Bytes, mem: Bytes)
    requires Inv(s) && DumpInv(s, t, state, mem) && t in s.tasks
    requires s.tasks[t].pc == Building(if kind.VmState? then OpenState else OpenMem)
    ensures DumpInv(AdvanceTask(s, t, false), t, if kind.VmState? then [] else state, if kind.MemFile? then [] else mem)
  {
    var pid := s.tasks[t].pid;
    assert AdvanceTask(s, t, false) == SetPc(OpenStaging(s, t, kind), t, Building(if kind.VmState? then OpenMem else Writing));
    if (pid, kind) in s.staged {
      assert StagedInv(s, (pid, kind));
    }
    if (pid, VmState) in s.staged {
      assert StagedInv(s, (pid, VmState)) && FileInv(s, s.staged[(pid, VmState)]);
    }
  }

  lemma ClosingStep(s: State, t: TaskId, state: Bytes, mem: Bytes)
    requires DumpInv(s, t, state, mem) && t in s.tasks && s.tasks[t].pc == Building(Writing)
    ensures DumpInv(AdvanceTask(s, t, false), t, state, mem)
  {
    assert AdvanceTask(s, t, false)
        == SetPc(s, t, Building(Dumped)).(inodes := Close(s.inodes, t), dumps := s.dumps[t := DumpOf(s, t)]);
  }

  predicate InTheMiddle(pc: Pc) {
    pc == Building(OpenMem) || pc == Building(Writing)
  }

  predicate TouchesNoFile(s: State, r: State, t: TaskId) {
    && (r.inodes == s.inodes || r.inodes == Close(s.inodes, t)) && r.dumps == s.dumps
    && t in r.tasks && !InTheMiddle(r.tasks[t].pc)
  }

  lemma GiveUpTouchesNoFile(s: State, t: TaskId)
    requires t in s.tasks
    ensures TouchesNoFile(s, GiveUp(s, t), t)
  {
  }

  /** From the length on, a build touches no file. */
  lemma LateStepTouchesNoFile(s: State, t: TaskId, stage: Stage, fails: bool)
    requires t in s.tasks && (stage.BothPublished? || AfterLength(stage))
    ensures TouchesNoFile(s, BuildStep(s, t, stage, fails), t)
  {
    GiveUpTouchesNoFile(s, t);
    hide GiveUp, Close;
    match stage {
      case MetaReady(_) =>
      case MetaStaged(_) =>
      case MetaPublished =>
      case _ => HashStepTouchesNoFile(s, t, stage, fails);
    }
  }

  lemma HashStepTouchesNoFile(s: State, t: TaskId, stage: Stage, fails: bool)
    requires t in s.tasks && (stage.BothPublished? || stage.Sized? || stage.StateHashed? || stage.BothHashed?)
    ensures TouchesNoFile(s, BuildStep(s, t, stage, fails), t)
  {
    GiveUpTouchesNoFile(s, t);
    hide GiveUp, Close;
  }

  /** No step but opening one gives a file a writer. */
  lemma LaterStepOpensNone(s: State, u: TaskId, stage: Stage, fails: bool, t: TaskId)
    requires u in s.tasks && NoneOpen(s, t) && (fails || u != t || !(stage.OpenState? || stage.OpenMem?))
    ensures NoneOpen(BuildStep(s, u, stage, fails), t)
  {
    match stage {
      case OpenState =>
      case OpenMem =>
      case Writing =>
      case Dumped =>
      case StatePublished =>
      case _ => LateStepTouchesNoFile(s, u, stage, fails);
    }
  }

  lemma DumpsStay(s: State, u: TaskId, stage: Stage, fails: bool, t: TaskId)
    requires u in s.tasks && (fails || u != t || !stage.Writing?)
    ensures var r := BuildStep(s, u, stage, fails);
            (t in r.dumps <==> t in s.dumps) && (t in s.dumps ==> r.dumps[t] == s.dumps[t])
  {
    match stage {
      case OpenState =>
      case OpenMem =>
      case Writing =>
      case Dumped =>
      case StatePublished =>
      case _ => LateStepTouchesNoFile(s, u, stage, fails);
    }
  }

  /** Any other step of a build. */
  lemma OtherBuildStep(s: State, u: TaskId, stage: Stage, fails: bool, t: TaskId, state: Bytes, mem: Bytes)
    requires Inv(s) && DumpInv(s, t, state, mem) && u in s.tasks && s.tasks[u].pc == Building(stage)
    requires fails || u != t || !(stage.OpenState? || stage.OpenMem? || stage.Writing?)
    ensures DumpInv(BuildStep(s, u, stage, fails), t, state, mem)
  {
    BuildMovesItself(s, u, stage, fails);
    if t in s.dumps && t in s.tasks {
      LaterStepOpensNone(s, u, stage, fails, t);
    }
    DumpsStay(s, u, stage, fails, t);
    if t != u {
      assert t in s.tasks ==> !s.tasks[t].pc.Building?;
    } else {
      NotIntoTheMiddle(s, t, stage, fails);
    }
    hide BuildStep;
  }

  lemma NotIntoTheMiddle(s: State, t: TaskId, stage: Stage, fails: bool)
    requires t in s.tasks && (fails || !(stage.OpenState? || stage.OpenMem?))
    ensures t in BuildStep(s, t, stage, fails).tasks && !InTheMiddle(BuildStep(s, t, stage, fails).tasks[t].pc)
  {
    match stage {
      case OpenState =>
      case OpenMem =>
      case Writing =>
      case Dumped =>
      case StatePublished =>
      case _ => LateStepTouchesNoFile(s, t, stage, fails);
    }
  }

  lemma OutsideStep(s: State, u: TaskId, fails: bool, t: TaskId, state: Bytes, mem: Bytes)
    requires DumpInv(s, t, state, mem) && u in s.tasks && !s.tasks[u].pc.Building?
    ensures DumpInv(AdvanceTask(s, u, fails), t, state, mem)
  {
    assert SameDirectory(s, AdvanceTask(s, u, fails));
    assert NextPc(s, u, fails).Building? ==> NextPc(s, u, fails) == Building(OpenState);
  }

  lemma WriteStep(s: State, i: Ino, more: Bytes, mtime: nat, t: TaskId, state: Bytes, mem: Bytes)
    requires Inv(s) && DumpInv(s, t, state, mem) && i in s.inodes && s.inodes[i].writer.Some?
    ensures var e := WriteOut(i, more, mtime);
            DumpInv(Step(s, e), t, WroteNow(s, e, t, VmState, state), WroteNow(s, e, t, MemFile, mem))
  {
    assert FileInv(s, i);
    if t in s.tasks {
      forall kind | HasStaged(s, s.tasks[t].pid, kind)
        ensures StagedInv(s, (s.tasks[t].pid, kind))
      {
      }
    }
  }

  lemma AdvanceKeepsDump(s: State, u: TaskId, fails: bool, t: TaskId, state: Bytes, mem: Bytes)
    requires Inv(s) && DumpInv(s, t, state, mem) && u in s.tasks
    ensures var e := Advance(u, fails);
            DumpInv(AdvanceTask(s, u, fails), t, WroteNow(s, e, t, VmState, state), WroteNow(s, e, t, MemFile, mem))
  {
    hide AdvanceTask, Inv, DumpInv;
    if !s.tasks[u].pc.Building? {
      OutsideStep(s, u, fails, t, state, mem);
    } else if u == t && !fails && (s.tasks[u].pc.stage.OpenState? || s.tasks[u].pc.stage.OpenMem?) {
      OpeningStep(s, t, if s.tasks[u].pc.stage.OpenState? then VmState else MemFile, state, mem);
    } else if u == t && !fails && s.tasks[u].pc.stage.Writing? {
      ClosingStep(s, t, state, mem);
    } else {
      OtherStepOfABuild(s, u, fails, t, state, mem);
    }
  }

  lemma OtherStepOfABuild(s: State, u: TaskId, fails: bool, t: TaskId, state: Bytes, mem: Bytes)
    requires Inv(s) && DumpInv(s, t, state, mem) && u in s.tasks && s.tasks[u].pc.Building?
    requires var stage := s.tasks[u].pc.stage; fails || u != t || !(stage.OpenState? || stage.OpenMem? || stage.Writing?)
    ensures DumpInv(AdvanceTask(s, u, fails), t, state, mem)
  {
    OtherBuildStep(s, u, s.tasks[u].pc.stage, fails, t, state, mem);
    hide BuildStep, Inv, DumpInv;
  }

  lemma StepKeepsDump(s: State, e: Event, t: TaskId, state: Bytes, mem: Bytes)
    requires Inv(s) && DumpInv(s, t, state, mem)
    ensures DumpInv(Step(s, e), t, WroteNow(s, e, t, VmState, state), WroteNow(s, e, t, MemFile, mem))
  {
    match e {
      case Advance(u, fails) =>
        if u in s.tasks {
          AdvanceKeepsDump(s, u, fails, t, state, mem);
          hide AdvanceTask, DumpInv, WroteNow;
        }
      case WriteOut(i, more, mtime) =>
        if i in s.inodes && s.inodes[i].writer.Some? {
          WriteStep(s, i, more, mtime, t, state, mem);
        }
      case Begin(_, _, _) => BeginStep(s, e, t, state, mem);
      case _ =>
    }
  }

  lemma BeginStep(s: State, e: Event, t: TaskId, state: Bytes, mem: Bytes)
    requires e.Begin? && DumpInv(s, t, state, mem)
    ensures DumpInv(Step(s, e), t, state, mem)
  {
  }

  lemma {:induction false} DumpReachable(start: State, events: seq<Event>, t: TaskId)
    requires IsStart(start)
    ensures DumpInv(Run(start, events), t, Wrote(start, events, t, VmState), Wrote(start, events, t, MemFile))
  {
    if events != [] {
      var before := events[..|events| - 1];
      DumpReachable(start, before, t);
      Reachable(start, before);
      StepKeepsDump(Run(start, before), events[|events| - 1], t, Wrote(start, before, t, VmState), Wrote(start, before, t, MemFile));
    }
  }

  /** The dump of a call of the run is exactly what its VMM wrote to its two files after the call
      opened them: a staging file left by an earlier build of the process is emptied, and no other
      VMM's writes get in. */
  lemma {:induction false} DumpIsWhatWasWritten(start: State, events: seq<Event>, t: TaskId)
    requires IsStart(start) && t in Run(start, events).tasks && t in Run(start, events).dumps
    ensures Run(start, events).dumps[t] == (Wrote(start, events, t, VmState), Wrote(start, events, t, MemFile))
  {
    DumpReachable(start, events, t);
  }
}
