/** What every run of the build protocol keeps, whatever crashes and I/O errors strike: one task
    between lock and release, no published file with an open writer, and metadata that tells the
    truth about the build that wrote it. */
module SnapshotSafety {
  import opened Wrappers
  import opened Bytes
  import opened SnapshotProtocol

  // ----------------------------------------------------------------- invariants

  predicate InCritical(pc: Pc) {
    pc.Rechecking? || pc.Building?
  }

  /** Its VMM has a staging file open. */
  predicate Dumping(pc: Pc) {
    pc.Building? && (pc.stage.OpenMem? || pc.stage.Writing?)
  }

  /** Its dump is closed. */
  predicate HasDumped(pc: Pc) {
    pc.Finished? || (pc.Building? && !pc.stage.OpenState? && !pc.stage.OpenMem? && !pc.stage.Writing?)
  }

  ghost predicate LockInv(s: State) {
    && (forall t :: t in s.tasks && InCritical(s.tasks[t].pc) ==> s.lock == Some(t))
    && (s.lock.Some? ==> s.lock.value in s.tasks && InCritical(s.tasks[s.lock.value].pc))
  }

  ghost predicate DeadInv(s: State) {
    forall t :: t in s.tasks && s.tasks[t].pid in s.dead ==> s.tasks[t].pc.Finished?
  }

  /** A file is open for writing only under its staging name, by the call that is dumping it or a
      VMM whose supervisor died. */
  predicate FileInv(s: State, i: Ino)
    requires i in s.inodes
  {
    var file := s.inodes[i];
    && i < s.next
    && (file.writer.Some? ==>
        && file.place.Staging? && (file.owner, file.kind) in s.staged && s.staged[(file.owner, file.kind)] == i
        && file.writer.value in s.tasks && s.tasks[file.writer.value].pid == file.owner
        && (Dumping(s.tasks[file.writer.value].pc) || file.owner in s.dead))
  }

  ghost predicate FilesInv(s: State) {
    forall i :: i in s.inodes ==> FileInv(s, i)
  }

  predicate IsPublished(s: State, name: Option<Ino>) {
    name.Some? ==> name.value in s.inodes && s.inodes[name.value].place.Published?
  }

  predicate StagedInv(s: State, name: (Pid, Kind))
    requires name in s.staged
  {
    var i := s.staged[name];
    i in s.inodes && s.inodes[i].owner == name.0 && s.inodes[i].kind == name.1 && s.inodes[i].place.Staging?
  }

  ghost predicate NamesInv(s: State) {
    && IsPublished(s, s.vmstate) && IsPublished(s, s.memfile)
    && forall name :: name in s.staged ==> StagedInv(s, name)
  }

  ghost predicate DumpsInv(s: State) {
    forall t :: t in s.dumps && t in s.tasks ==> HasDumped(s.tasks[t].pc)
  }

  ghost predicate MetaInv(s: State) {
    && (s.meta.Some? ==> Sound(s.dumps, s.meta.value))
    && forall pid :: pid in s.stagedMeta ==> Sound(s.dumps, s.stagedMeta[pid])
  }

  /** The record a verification goes by. */
  predicate CarriesSound(dumps: map<TaskId, (Bytes, Bytes)>, v: Verify) {
    v.Start? || v.Read? || (v.m.Recorded? && Sound(dumps, v.m))
  }

  predicate PcSound(dumps: map<TaskId, (Bytes, Bytes)>, pc: Pc) {
    match pc
    case Checking(_, v) => CarriesSound(dumps, v)
    case Giving(_, v) => CarriesSound(dumps, v)
    case Rechecking(v) => CarriesSound(dumps, v)
    case Reading(_, v) => CarriesSound(dumps, v)
    case Finished(outcome) => outcome.Verified? ==> outcome.m.Recorded? && Sound(dumps, outcome.m)
    case _ => true
  }

  ghost predicate CarryInv(s: State) {
    forall t :: t in s.tasks ==> PcSound(s.dumps, s.tasks[t].pc)
  }

  predicate HasStaged(s: State, pid: Pid, kind: Kind) {
    (pid, kind) in s.staged && s.staged[(pid, kind)] in s.inodes
  }

  /** A closed staging file with exactly these bytes. */
  predicate StagedAs(s: State, pid: Pid, kind: Kind, bytes: Bytes) {
    HasStaged(s, pid, kind) && s.inodes[s.staged[(pid, kind)]].writer.None? && s.inodes[s.staged[(pid, kind)]].bytes == bytes
  }

  predicate Holds(s: State, name: Option<Ino>, bytes: Bytes) {
    name.Some? && name.value in s.inodes && s.inodes[name.value].bytes == bytes
  }

  /** How far the build under the lock has come. */
  predicate StageInv(s: State, t: TaskId, pid: Pid, stage: Stage) {
    match stage
    case OpenState => true
    case OpenMem => HasStaged(s, pid, VmState)
    case Writing => HasStaged(s, pid, VmState) && HasStaged(s, pid, MemFile)
    case Dumped => t in s.dumps && StagedAs(s, pid, VmState, s.dumps[t].0) && StagedAs(s, pid, MemFile, s.dumps[t].1)
    case StatePublished => t in s.dumps && Holds(s, s.vmstate, s.dumps[t].0) && StagedAs(s, pid, MemFile, s.dumps[t].1)
    case BothPublished => BothHold(s, t)
    case Sized(_) => BothHold(s, t)
    case StateHashed(_, b3) => BothHold(s, t) && b3 == Blake3(s.dumps[t].0)
    case BothHashed(_, b3, memB3) => BothHold(s, t) && b3 == Blake3(s.dumps[t].0) && memB3 == Blake3(s.dumps[t].1)
    case MetaReady(m) => BothHold(s, t) && OwnRecord(s, t, m)
    case MetaStaged(m) => BothHold(s, t) && OwnRecord(s, t, m) && pid in s.stagedMeta && s.stagedMeta[pid] == m
    case MetaPublished => BothHold(s, t) && s.meta.Some? && OwnRecord(s, t, s.meta.value)
  }

  predicate BothHold(s: State, t: TaskId) {
    t in s.dumps && Holds(s, s.vmstate, s.dumps[t].0) && Holds(s, s.memfile, s.dumps[t].1)
  }

  predicate OwnRecord(s: State, t: TaskId, m: Meta) {
    && m.Recorded? && m.author == t && Sound(s.dumps, m)
    && m.memfileBytes == |s.dumps[t].1| && s.memfile.Some? && s.memfile.value in s.inodes && m.mtime == s.inodes[s.memfile.value].mtime
  }

  /** What a check under the lock has found so far, of the directory as it is. */
  predicate Confirmed(s: State, v: Verify) {
    match v
    case Start => true
    case Read => IsComplete(s)
    case Size(m) => IsComplete(s) && s.meta == Some(m) && m.Recorded?
    case Hash(m) => IsComplete(s) && s.meta == Some(m) && m.Recorded? && VerifyStep(s, Fast, Size(m)).Go?
    case Mem(m) =>
      && IsComplete(s) && s.meta == Some(m) && m.Recorded?
      && VerifyStep(s, Fast, Size(m)).Go? && VerifyStep(s, Fast, Hash(m)).Go?
    case HashMem(_) => false
  }

  predicate HolderInv(s: State) {
    s.lock.Some? && s.lock.value in s.tasks ==>
      var task := s.tasks[s.lock.value];
      && (task.pc.Building? ==> StageInv(s, s.lock.value, task.pid, task.pc.stage))
      && (task.pc.Rechecking? ==> Confirmed(s, task.pc.v))
  }

  ghost predicate Inv(s: State) {
    LockInv(s) && DeadInv(s) && FilesInv(s) && NamesInv(s) && DumpsInv(s) && MetaInv(s) && CarryInv(s) && HolderInv(s)
  }

  // ------------------------------------------------ steps that move one task only

  predicate SameDirectory(s: State, r: State) {
    && r.inodes == s.inodes && r.next == s.next && r.vmstate == s.vmstate && r.memfile == s.memfile && r.meta == s.meta
    && r.staged == s.staged && r.stagedMeta == s.stagedMeta && r.dead == s.dead && r.dumps == s.dumps && r.published == s.published
  }

  /** A task that is not dumping moves on and nothing else changes. */
  lemma MoveKeepsInv(s: State, t: TaskId, pc: Pc, lock: Option<TaskId>)
    requires Inv(s) && t in s.tasks && !Dumping(s.tasks[t].pc) && !s.tasks[t].pc.Finished?
    requires PcSound(s.dumps, pc) && (HasDumped(s.tasks[t].pc) ==> HasDumped(pc))
    requires InCritical(pc) ==> lock == Some(t)
    requires lock == s.lock || (s.lock == None && lock == Some(t) && InCritical(pc)) || (s.lock == Some(t) && lock == None)
    requires !InCritical(pc) ==> lock != Some(t)
    requires pc.Building? ==> StageInv(s, t, s.tasks[t].pid, pc.stage)
    requires pc.Rechecking? ==> Confirmed(s, pc.v)
    ensures Inv(SetPc(s, t, pc).(lock := lock))
  {
    var r := SetPc(s, t, pc).(lock := lock);
    SameFilesKeep(s, r);
    SameRecordsKeep(s, r, t);
    MoveKeepsLock(s, t, pc, lock);
    SameStageKeeps(s, r);
  }

  lemma MoveKeepsLock(s: State, t: TaskId, pc: Pc, lock: Option<TaskId>)
    requires LockInv(s) && DeadInv(s) && t in s.tasks && !s.tasks[t].pc.Finished?
    requires InCritical(pc) ==> lock == Some(t)
    requires lock == s.lock || (s.lock == None && lock == Some(t) && InCritical(pc)) || (s.lock == Some(t) && lock == None)
    requires !InCritical(pc) ==> lock != Some(t)
    ensures LockInv(SetPc(s, t, pc).(lock := lock)) && DeadInv(SetPc(s, t, pc).(lock := lock))
  {
    var r := SetPc(s, t, pc).(lock := lock);
    assert forall u :: u in r.tasks && u != t ==> r.tasks[u] == s.tasks[u];
  }

  /** Nothing recorded changes, and only task `t` moves. */
  lemma SameRecordsKeep(s: State, r: State, t: TaskId)
    requires DumpsInv(s) && MetaInv(s) && CarryInv(s)
    requires r.dumps == s.dumps && r.meta == s.meta && r.stagedMeta == s.stagedMeta
    requires forall u :: u in s.tasks ==> u in r.tasks
    requires forall u :: u in r.tasks && u != t ==> u in s.tasks && r.tasks[u] == s.tasks[u]
    requires t in r.tasks ==> PcSound(s.dumps, r.tasks[t].pc)
    requires t in s.tasks || t !in s.dumps
    requires t in s.tasks && HasDumped(s.tasks[t].pc) ==> HasDumped(r.tasks[t].pc)
    ensures DumpsInv(r) && MetaInv(r) && CarryInv(r)
  {
    forall u | u in r.tasks
      ensures PcSound(r.dumps, r.tasks[u].pc)
    {
      assert u != t ==> PcSound(s.dumps, s.tasks[u].pc);
    }
  }

  /** The same files under the same names, with every dumping task still there or dead. */
  lemma SameFilesKeep(s: State, r: State)
    requires FilesInv(s) && NamesInv(s)
    requires r.inodes == s.inodes && r.next == s.next && r.staged == s.staged && r.vmstate == s.vmstate && r.memfile == s.memfile
    requires s.dead <= r.dead
    requires forall w :: w in s.tasks ==> w in r.tasks && r.tasks[w].pid == s.tasks[w].pid
    requires forall w :: w in s.tasks && Dumping(s.tasks[w].pc) ==> Dumping(r.tasks[w].pc) || s.tasks[w].pid in r.dead
    ensures FilesInv(r) && NamesInv(r)
  {
    forall i | i in r.inodes
      ensures FileInv(r, i)
    {
      assert FileInv(s, i);
    }
    forall name | name in r.staged
      ensures StagedInv(r, name)
    {
      assert StagedInv(s, name);
    }
  }

  lemma SameStageKeeps(s: State, r: State)
    requires SameDirectory(s, r)
    ensures forall u, pid, stage :: StageInv(s, u, pid, stage) ==> StageInv(r, u, pid, stage)
    ensures forall v :: Confirmed(s, v) ==> Confirmed(r, v)
  {
  }

  lemma VerifyCarries(s: State, level: Integrity, v: Verify)
    requires MetaInv(s) && CarriesSound(s.dumps, v)
    ensures match VerifyStep(s, level, v)
            case Go(next) => CarriesSound(s.dumps, next)
            case Pass(m) => m.Recorded? && Sound(s.dumps, m)
            case Fail => true
  {
  }

  lemma ReturnKeepsInv(s: State, t: TaskId, outcome: Outcome)
    requires Inv(s) && t in s.tasks && !Dumping(s.tasks[t].pc) && !s.tasks[t].pc.Finished?
    requires outcome.Verified? ==> outcome.m.Recorded? && Sound(s.dumps, outcome.m)
    ensures Inv(Return(s, t, outcome))
  {
    MoveKeepsInv(s, t, Finished(outcome), if s.lock == Some(t) then None else s.lock);
  }

  lemma NextPcSound(s: State, t: TaskId, fails: bool)
    requires MetaInv(s) && CarryInv(s) && t in s.tasks && !s.tasks[t].pc.Building?
    ensures PcSound(s.dumps, NextPc(s, t, fails))
  {
    var pc := s.tasks[t].pc;
    assert PcSound(s.dumps, pc);
    if pc.Checking? || pc.Giving? || pc.Rechecking? || pc.Reading? {
      VerifyCarries(s, if pc.Reading? then pc.level else Fast, pc.v);
    }
  }

  /** A check under the lock goes on only as it confirms, and fails only if a whole check would. */
  lemma NextConfirms(s: State, t: TaskId, fails: bool)
    requires LockInv(s) && HolderInv(s) && t in s.tasks && !s.tasks[t].pc.Building?
    ensures NextPc(s, t, fails).Rechecking? ==> Confirmed(s, NextPc(s, t, fails).v)
  {
  }

  /** Only the way through the lock leads into the critical section. */
  lemma NextPcAndLock(s: State, t: TaskId, fails: bool)
    requires LockInv(s) && t in s.tasks && !s.tasks[t].pc.Building?
    ensures var pc, lock := NextPc(s, t, fails), LockAfter(s, t, NextPc(s, t, fails));
            && (InCritical(pc) ==> lock == Some(t)) && (!InCritical(pc) ==> lock != Some(t))
            && (lock == s.lock || (s.lock == None && lock == Some(t) && InCritical(pc)) || (s.lock == Some(t) && lock == None))
            && (pc.Building? ==> pc.stage.OpenState?)
            && (s.tasks[t].pc.Finished? ==> pc == s.tasks[t].pc)
  {
  }

  /** Every step of a task that is not building. */
  lemma OutsideStepKeepsInv(s: State, t: TaskId, fails: bool)
    requires Inv(s) && t in s.tasks && !s.tasks[t].pc.Building?
    ensures Inv(AdvanceTask(s, t, fails))
  {
    var pc := NextPc(s, t, fails);
    NextPcSound(s, t, fails);
    NextPcAndLock(s, t, fails);
    NextConfirms(s, t, fails);
    if s.tasks[t].pc.Finished? {
      assert AdvanceTask(s, t, fails) == s by {
        assert s.tasks[t := s.tasks[t]] == s.tasks;
      }
    } else {
      MoveKeepsInv(s, t, pc, LockAfter(s, t, pc));
    }
  }

  // ------------------------------------------------------------- building steps

  /** Only the lock's holder builds, and an open file of its process is its own. */
  lemma OwnWriter(s: State, t: TaskId, kind: Kind)
    requires LockInv(s) && DeadInv(s) && FilesInv(s) && NamesInv(s)
    requires t in s.tasks && s.tasks[t].pc.Building? && (s.tasks[t].pid, kind) in s.staged
    ensures var file := s.inodes[s.staged[(s.tasks[t].pid, kind)]];
            file.writer.None? || (file.writer == Some(t) && Dumping(s.tasks[t].pc))
  {
    assert StagedInv(s, (s.tasks[t].pid, kind));
    var i := s.staged[(s.tasks[t].pid, kind)];
    assert FileInv(s, i);
  }

  lemma OpenKeepsFiles(s: State, t: TaskId, kind: Kind, stage: Stage)
    requires LockInv(s) && DeadInv(s) && FilesInv(s) && NamesInv(s)
    requires t in s.tasks && s.tasks[t].pc.Building? && (stage.OpenMem? || stage.Writing?)
    ensures FilesInv(SetPc(OpenStaging(s, t, kind), t, Building(stage)))
  {
    var r := SetPc(OpenStaging(s, t, kind), t, Building(stage));
    var pid := s.tasks[t].pid;
    if (pid, kind) in s.staged {
      assert StagedInv(s, (pid, kind)) && FileInv(s, s.staged[(pid, kind)]);
    }
    forall i | i in r.inodes
      ensures FileInv(r, i)
    {
      if i in s.inodes {
        assert FileInv(s, i);
      }
    }
  }

  lemma OpenKeepsNames(s: State, t: TaskId, kind: Kind, stage: Stage)
    requires FilesInv(s) && NamesInv(s) && t in s.tasks
    ensures NamesInv(SetPc(OpenStaging(s, t, kind), t, Building(stage)))
  {
    var r := SetPc(OpenStaging(s, t, kind), t, Building(stage));
    if (s.tasks[t].pid, kind) in s.staged {
      assert StagedInv(s, (s.tasks[t].pid, kind));
    }
    forall name | name in r.staged
      ensures StagedInv(r, name)
    {
      if name in s.staged {
        assert StagedInv(s, name) && FileInv(s, s.staged[name]);
      }
    }
    assert s.vmstate.Some? ==> FileInv(s, s.vmstate.value);
    assert s.memfile.Some? ==> FileInv(s, s.memfile.value);
  }

  lemma OpenKeepsInv(s: State, t: TaskId, kind: Kind, stage: Stage)
    requires Inv(s) && t in s.tasks && s.tasks[t].pc.Building?
    requires if kind.VmState? then s.tasks[t].pc.stage.OpenState? && stage.OpenMem? else s.tasks[t].pc.stage.OpenMem? && stage.Writing?
    ensures Inv(SetPc(OpenStaging(s, t, kind), t, Building(stage)))
  {
    var r := SetPc(OpenStaging(s, t, kind), t, Building(stage));
    OpenKeepsFiles(s, t, kind, stage);
    OpenKeepsNames(s, t, kind, stage);
    SameRecordsKeep(s, r, t);
    BuilderKeepsLock(s, r, t);
    OpenedStage(s, t, kind, stage);
  }

  lemma OpenedStage(s: State, t: TaskId, kind: Kind, stage: Stage)
    requires NamesInv(s) && t in s.tasks
    requires if kind.VmState? then stage.OpenMem? else stage.Writing? && HasStaged(s, s.tasks[t].pid, VmState)
    ensures StageInv(SetPc(OpenStaging(s, t, kind), t, Building(stage)), t, s.tasks[t].pid, stage)
  {
    if (s.tasks[t].pid, kind) in s.staged {
      assert StagedInv(s, (s.tasks[t].pid, kind));
    }
  }

  /** The builder moves on, still under the lock. */
  lemma BuilderKeepsLock(s: State, r: State, t: TaskId)
    requires LockInv(s) && DeadInv(s) && t in s.tasks && s.tasks[t].pc.Building?
    requires t in r.tasks && r.tasks[t].pid == s.tasks[t].pid && r.tasks[t].pc.Building?
    requires r.tasks == s.tasks[t := r.tasks[t]] && r.lock == s.lock && r.dead == s.dead
    ensures LockInv(r) && DeadInv(r)
  {
  }

  lemma CloseKeepsFiles(s: State, t: TaskId, pc: Pc, dumps: map<TaskId, (Bytes, Bytes)>, lock: Option<TaskId>)
    requires FilesInv(s) && NamesInv(s) && t in s.tasks
    ensures var r := SetPc(s, t, pc).(inodes := Close(s.inodes, t), dumps := dumps, lock := lock); FilesInv(r) && NamesInv(r)
  {
    var r := SetPc(s, t, pc).(inodes := Close(s.inodes, t), dumps := dumps, lock := lock);
    forall i | i in r.inodes
      ensures FileInv(r, i)
    {
      assert FileInv(s, i);
    }
    forall name | name in r.staged
      ensures StagedInv(r, name)
    {
      assert StagedInv(s, name);
    }
  }

  lemma GiveUpKeepsInv(s: State, t: TaskId)
    requires Inv(s) && t in s.tasks && s.tasks[t].pc.Building?
    ensures Inv(GiveUp(s, t))
  {
    CloseKeepsFiles(s, t, Finished(Failed), s.dumps, None);
    var r := GiveUp(s, t);
    assert r == SetPc(s, t, Finished(Failed)).(inodes := Close(s.inodes, t), dumps := s.dumps, lock := None);
  }

  /** The dump is closed: the staged files are what the build's VMM wrote, and stay so. */
  lemma CloseKeepsInv(s: State, t: TaskId)
    requires Inv(s) && t in s.tasks && s.tasks[t].pc == Building(Writing)
    ensures Inv(BuildStep(s, t, Writing, false))
  {
    var r := BuildStep(s, t, Writing, false);
    var dumps := s.dumps[t := DumpOf(s, t)];
    assert r == SetPc(s, t, Building(Dumped)).(inodes := Close(s.inodes, t), dumps := dumps, lock := s.lock);
    CloseKeepsFiles(s, t, Building(Dumped), dumps, s.lock);
    NewDumpKeepsRecords(s, r, t);
    BuilderKeepsLock(s, r, t);
    ClosedAsDumped(s, t);
  }

  lemma NewDumpKeepsRecords(s: State, r: State, t: TaskId)
    requires MetaInv(s) && CarryInv(s) && t !in s.dumps && t in s.tasks
    requires r.meta == s.meta && r.stagedMeta == s.stagedMeta && t in r.tasks && r.tasks == s.tasks[t := r.tasks[t]] && r.tasks[t].pc.Building?
    requires t in r.dumps && r.dumps == s.dumps[t := r.dumps[t]]
    ensures MetaInv(r) && CarryInv(r)
  {
    forall u | u in r.tasks
      ensures PcSound(r.dumps, r.tasks[u].pc)
    {
      assert u != t ==> PcSound(s.dumps, s.tasks[u].pc);
    }
  }

  lemma ClosedAsDumped(s: State, t: TaskId)
    requires LockInv(s) && DeadInv(s) && FilesInv(s) && NamesInv(s) && t in s.tasks && s.tasks[t].pc == Building(Writing)
    requires HasStaged(s, s.tasks[t].pid, VmState) && HasStaged(s, s.tasks[t].pid, MemFile)
    ensures var r := BuildStep(s, t, Writing, false); StageInv(r, t, s.tasks[t].pid, Dumped)
  {
    OwnWriter(s, t, VmState);
    OwnWriter(s, t, MemFile);
  }

  lemma PublishKeepsFiles(s: State, t: TaskId, kind: Kind, pc: Pc)
    requires FilesInv(s) && NamesInv(s) && t in s.tasks && !Dumping(s.tasks[t].pc)
    requires HasStaged(s, s.tasks[t].pid, kind) && s.inodes[s.staged[(s.tasks[t].pid, kind)]].writer.None?
    ensures var r := SetPc(Publish(s, t, kind), t, pc); FilesInv(r) && NamesInv(r)
  {
    var r := SetPc(Publish(s, t, kind), t, pc);
    var moved := s.staged[(s.tasks[t].pid, kind)];
    assert StagedInv(s, (s.tasks[t].pid, kind));
    forall i | i in r.inodes
      ensures FileInv(r, i)
    {
      assert FileInv(s, i);
    }
    forall name | name in r.staged
      ensures StagedInv(r, name)
    {
      assert StagedInv(s, name);
    }
  }

  lemma PublishStateKeepsInv(s: State, t: TaskId)
    requires Inv(s) && t in s.tasks && s.tasks[t].pc == Building(Dumped) && HasStaged(s, s.tasks[t].pid, VmState)
    ensures Inv(SetPc(Publish(s, t, VmState), t, Building(StatePublished)))
  {
    var r := SetPc(Publish(s, t, VmState), t, Building(StatePublished));
    PublishKeepsFiles(s, t, VmState, Building(StatePublished));
    SameRecordsKeep(s, r, t);
    BuilderKeepsLock(s, r, t);
    PublishedStage(s, t, VmState, StatePublished);
  }

  lemma PublishMemKeepsInv(s: State, t: TaskId)
    requires Inv(s) && t in s.tasks && s.tasks[t].pc == Building(StatePublished) && HasStaged(s, s.tasks[t].pid, MemFile)
    ensures Inv(SetPc(Publish(s, t, MemFile), t, Building(BothPublished)))
  {
    var r := SetPc(Publish(s, t, MemFile), t, Building(BothPublished));
    PublishKeepsFiles(s, t, MemFile, Building(BothPublished));
    SameRecordsKeep(s, r, t);
    BuilderKeepsLock(s, r, t);
    PublishedStage(s, t, MemFile, BothPublished);
  }

  lemma PublishedStage(s: State, t: TaskId, kind: Kind, stage: Stage)
    requires NamesInv(s) && t in s.tasks && HasStaged(s, s.tasks[t].pid, kind)
    requires if kind.VmState? then StageInv(s, t, s.tasks[t].pid, Dumped) && stage.StatePublished?
             else StageInv(s, t, s.tasks[t].pid, StatePublished) && stage.BothPublished?
    ensures StageInv(SetPc(Publish(s, t, kind), t, Building(stage)), t, s.tasks[t].pid, stage)
  {
    var pid := s.tasks[t].pid;
    assert StagedInv(s, (pid, kind));
    assert (pid, MemFile) in s.staged ==> StagedInv(s, (pid, MemFile));
  }

  lemma MetaKeepsInv(s: State, t: TaskId, m: Meta)
    requires Inv(s) && t in s.tasks && (s.tasks[t].pc == Building(MetaReady(m)) || s.tasks[t].pc == Building(MetaStaged(m)))
    ensures Inv(BuildStep(s, t, s.tasks[t].pc.stage, false))
  {
    var r := BuildStep(s, t, s.tasks[t].pc.stage, false);
    MetaKeepsHolder(s, t, m);
    hide HolderInv;
    SameFilesKeep(s, r);
    MetaKeepsRecords(s, t, m);
    BuilderKeepsLock(s, r, t);
  }

  lemma MetaKeepsHolder(s: State, t: TaskId, m: Meta)
    requires LockInv(s) && HolderInv(s) && t in s.tasks && (s.tasks[t].pc == Building(MetaReady(m)) || s.tasks[t].pc == Building(MetaStaged(m)))
    ensures StageInv(s, t, s.tasks[t].pid, s.tasks[t].pc.stage)
    ensures HolderInv(BuildStep(s, t, s.tasks[t].pc.stage, false))
  {
    assert s.lock == Some(t);
  }

  lemma MetaKeepsRecords(s: State, t: TaskId, m: Meta)
    requires DumpsInv(s) && MetaInv(s) && CarryInv(s)
    requires t in s.tasks && (s.tasks[t].pc == Building(MetaReady(m)) || s.tasks[t].pc == Building(MetaStaged(m)))
    requires StageInv(s, t, s.tasks[t].pid, s.tasks[t].pc.stage)
    ensures var r := BuildStep(s, t, s.tasks[t].pc.stage, false); DumpsInv(r) && MetaInv(r) && CarryInv(r)
  {
    var r := BuildStep(s, t, s.tasks[t].pc.stage, false);
    forall u | u in r.tasks
      ensures PcSound(r.dumps, r.tasks[u].pc)
    {
      assert u != t ==> PcSound(s.dumps, s.tasks[u].pc);
    }
  }

  lemma HashKeepsInv(s: State, t: TaskId)
    requires Inv(s) && t in s.tasks && s.tasks[t].pc.Building?
    requires var stage := s.tasks[t].pc.stage; stage.Sized? || stage.StateHashed? || stage.BothHashed?
    ensures Inv(BuildStep(s, t, s.tasks[t].pc.stage, false))
  {
    var r := BuildStep(s, t, s.tasks[t].pc.stage, false);
    assert r == SetPc(s, t, r.tasks[t].pc).(lock := s.lock);
    MoveKeepsInv(s, t, r.tasks[t].pc, s.lock);
  }

  lemma BuildStepKeepsInv(s: State, t: TaskId, fails: bool)
    requires Inv(s) && t in s.tasks && s.tasks[t].pc.Building?
    ensures Inv(BuildStep(s, t, s.tasks[t].pc.stage, fails))
  {
    var stage := s.tasks[t].pc.stage;
    assert s.lock == Some(t) && StageInv(s, t, s.tasks[t].pid, stage);
    if stage.MetaPublished? {
      ReturnKeepsInv(s, t, Built);
    } else if stage.BothPublished? {
      MoveKeepsInv(s, t, BuildStep(s, t, stage, fails).tasks[t].pc, s.lock);
    } else if fails {
      GiveUpKeepsInv(s, t);
    } else {
      match stage {
        case OpenState => OpenKeepsInv(s, t, VmState, OpenMem);
        case OpenMem => OpenKeepsInv(s, t, MemFile, Writing);
        case Writing => CloseKeepsInv(s, t);
        case Dumped => PublishStateKeepsInv(s, t);
        case StatePublished => PublishMemKeepsInv(s, t);
        case MetaReady(m) => MetaKeepsInv(s, t, m);
        case MetaStaged(m) => MetaKeepsInv(s, t, m);
        case Sized(_) => HashKeepsInv(s, t);
        case StateHashed(_, _) => HashKeepsInv(s, t);
        case BothHashed(_, _, _) => HashKeepsInv(s, t);
      }
    }
  }

  // --------------------------------------------------------------- other events

  lemma BeginKeepsInv(s: State, t: TaskId, pid: Pid, role: Role)
    requires Inv(s) && t !in s.tasks && t !in s.dumps && pid !in s.dead
    ensures Inv(Step(s, Begin(t, pid, role)))
  {
    var r := Step(s, Begin(t, pid, role));
    SameFilesKeep(s, r);
    SameRecordsKeep(s, r, t);
    SameStageKeeps(s, r);
  }

  lemma WriteKeepsFiles(s: State, i: Ino, more: Bytes, mtime: nat)
    requires FilesInv(s) && NamesInv(s) && i in s.inodes && s.inodes[i].writer.Some?
    ensures FilesInv(Step(s, WriteOut(i, more, mtime))) && NamesInv(Step(s, WriteOut(i, more, mtime)))
  {
    var r := Step(s, WriteOut(i, more, mtime));
    forall j | j in r.inodes
      ensures FileInv(r, j)
    {
      assert FileInv(s, j);
    }
    forall name | name in r.staged
      ensures StagedInv(r, name)
    {
      assert StagedInv(s, name);
    }
  }

  /** A write reaches no published file, so a check finds what it would have found. */
  lemma WriteKeepsChecks(s: State, i: Ino, more: Bytes, mtime: nat)
    requires FilesInv(s) && NamesInv(s) && i in s.inodes && s.inodes[i].writer.Some?
    ensures var r := Step(s, WriteOut(i, more, mtime));
            && r.vmstate == s.vmstate && r.memfile == s.memfile && r.meta == s.meta
            && (s.vmstate.Some? ==> s.vmstate.value in r.inodes && r.inodes[s.vmstate.value] == s.inodes[s.vmstate.value])
            && (s.memfile.Some? ==> s.memfile.value in r.inodes && r.inodes[s.memfile.value] == s.inodes[s.memfile.value])
    ensures forall v :: Confirmed(s, v) ==> Confirmed(Step(s, WriteOut(i, more, mtime)), v)
    ensures forall level :: Passes(Step(s, WriteOut(i, more, mtime)), level) <==> Passes(s, level)
  {
    assert FileInv(s, i);
  }

  /** A write goes to a staging file that is open, never to a published or a closed one. */
  lemma WriteKeepsStage(s: State, i: Ino, more: Bytes, mtime: nat, t: TaskId, pid: Pid, stage: Stage)
    requires FilesInv(s) && NamesInv(s) && i in s.inodes && s.inodes[i].writer.Some? && StageInv(s, t, pid, stage)
    ensures StageInv(Step(s, WriteOut(i, more, mtime)), t, pid, stage)
  {
    assert FileInv(s, i);
  }

  lemma WriteKeepsInv(s: State, i: Ino, more: Bytes, mtime: nat)
    requires Inv(s) && i in s.inodes && s.inodes[i].writer.Some?
    ensures Inv(Step(s, WriteOut(i, more, mtime)))
  {
    WriteKeepsFiles(s, i, more, mtime);
    if s.lock.Some? {
      var t := s.lock.value;
      if s.tasks[t].pc.Building? {
        WriteKeepsStage(s, i, more, mtime, t, s.tasks[t].pid, s.tasks[t].pc.stage);
      } else {
        WriteKeepsChecks(s, i, more, mtime);
      }
    }
  }

  lemma TickKeepsInv(s: State)
    requires Inv(s)
    ensures Inv(Step(s, Tick))
  {
    SameFilesKeep(s, Step(s, Tick));
    SameStageKeeps(s, Step(s, Tick));
  }

  lemma CrashKeepsRecords(s: State, pid: Pid)
    requires DumpsInv(s) && MetaInv(s) && CarryInv(s)
    ensures DumpsInv(Crashed(s, pid)) && MetaInv(Crashed(s, pid)) && CarryInv(Crashed(s, pid))
  {
    var r := Crashed(s, pid);
    forall t | t in r.tasks
      ensures PcSound(r.dumps, r.tasks[t].pc)
    {
      assert PcSound(s.dumps, s.tasks[t].pc);
    }
  }

  lemma CrashKeepsLock(s: State, pid: Pid)
    requires LockInv(s) && DeadInv(s)
    ensures LockInv(Crashed(s, pid)) && DeadInv(Crashed(s, pid))
  {
  }

  lemma CrashKeepsInv(s: State, pid: Pid)
    requires Inv(s)
    ensures Inv(Crashed(s, pid))
  {
    var r := Crashed(s, pid);
    SameFilesKeep(s, r);
    CrashKeepsRecords(s, pid);
    CrashKeepsLock(s, pid);
    CrashKeepsHolder(s, pid);
  }

  lemma CrashKeepsHolder(s: State, pid: Pid)
    requires HolderInv(s)
    ensures HolderInv(Crashed(s, pid))
  {
    SameStageKeepsBut(s, Crashed(s, pid));
  }

  lemma SameStageKeepsBut(s: State, r: State)
    requires SameDirectory(s, r.(dead := s.dead))
    ensures forall u, pid, stage :: StageInv(s, u, pid, stage) ==> StageInv(r, u, pid, stage)
    ensures forall v :: Confirmed(s, v) ==> Confirmed(r, v)
  {
  }

  lemma StepKeepsInv(s: State, e: Event)
    requires Inv(s)
    ensures Inv(Step(s, e))
  {
    match e {
      case Begin(t, pid, role) =>
        if t !in s.tasks && t !in s.dumps && pid !in s.dead {
          BeginKeepsInv(s, t, pid, role);
        }
      case Advance(t, fails) =>
        if t in s.tasks {
          if s.tasks[t].pc.Building? {
            BuildStepKeepsInv(s, t, fails);
          } else {
            OutsideStepKeepsInv(s, t, fails);
          }
        }
      case WriteOut(i, more, mtime) =>
        if i in s.inodes && s.inodes[i].writer.Some? {
          WriteKeepsInv(s, i, more, mtime);
        }
      case Tick => TickKeepsInv(s);
      case Crash(pid) => CrashKeepsInv(s, pid);
    }
  }

  lemma {:induction false} Reachable(start: State, events: seq<Event>)
    requires IsStart(start)
    ensures Inv(Run(start, events))
  {
    if events != [] {
      Reachable(start, events[..|events| - 1]);
      StepKeepsInv(Run(start, events[..|events| - 1]), events[|events| - 1]);
    }
  }

  // ------------------------------------------------------------------- theorems

  /** At most one task is between taking the lock and releasing it. */
  lemma {:induction false} MutualExclusion(start: State, events: seq<Event>, t: TaskId, u: TaskId)
    requires IsStart(start)
    requires var s := Run(start, events); t in s.tasks && u in s.tasks && InCritical(s.tasks[t].pc) && InCritical(s.tasks[u].pc)
    ensures t == u
  {
    Reachable(start, events);
  }

  /** No published file has an open writer, not even a crashed build's. */
  lemma {:induction false} PublishedFilesAreClosed(start: State, events: seq<Event>)
    requires IsStart(start)
    ensures var s := Run(start, events);
            && (s.vmstate.Some? ==> s.vmstate.value in s.inodes && s.inodes[s.vmstate.value].writer == None)
            && (s.memfile.Some? ==> s.memfile.value in s.inodes && s.inodes[s.memfile.value].writer == None)
  {
    var s := Run(start, events);
    Reachable(start, events);
    assert s.vmstate.Some? ==> FileInv(s, s.vmstate.value);
    assert s.memfile.Some? ==> FileInv(s, s.memfile.value);
  }

  /** Whenever a full verification of the directory passes, the two files hold exactly the bytes
      the VMM of one build wrote, the build that wrote the current meta.json. */
  lemma {:induction false} FullMeansOneBuild(start: State, events: seq<Event>)
    requires IsStart(start) && Passes(Run(start, events), Full)
    ensures var s := Run(start, events); BothHold(s, s.meta.value.author)
  {
    Reachable(start, events);
  }

  /** The same of a verification that takes its steps while others take theirs: each file it
      digests holds, when digested, the bytes of the build whose record it read. */
  lemma {:induction false} EachDigestedFileIsTheAuthors(start: State, events: seq<Event>, t: TaskId)
    requires IsStart(start) && t in Run(start, events).tasks
    requires var pc := Run(start, events).tasks[t].pc;
             pc.Reading? && (pc.v.Hash? || pc.v.HashMem?) && VerifyStep(Run(start, events), pc.level, pc.v) != Fail
    ensures var s := Run(start, events);
            var v := s.tasks[t].pc.v;
            && v.m.Recorded? && v.m.author in s.dumps
            && Holds(s, if v.Hash? then s.vmstate else s.memfile, if v.Hash? then s.dumps[v.m.author].0 else s.dumps[v.m.author].1)
  {
    Reachable(start, events);
    assert PcSound(Run(start, events).dumps, Run(start, events).tasks[t].pc);
  }
}
