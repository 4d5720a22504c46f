/** The warm-pool build protocol as a transition system: any number of tasks in any number of
    processes over one snapshot directory, one file operation a step, with a crash or an I/O
    error possible at each. */
module SnapshotProtocol {
  import opened Wrappers
  import opened Bytes

  type TaskId = nat
  type Pid = nat
  type Ino = nat

  /** A digest, taken to be injective. A legacy record has none. */
  datatype Digest = Blake3(of: Bytes)

  /** What `meta.json` records, and for the statements below which build wrote it. */
  datatype Meta =
    | Legacy
    | Recorded(author: TaskId, vmstateBytes: nat, memfileBytes: nat, vmstateB3: Digest, memfileB3: Digest, mtime: nat)

  datatype Kind = VmState | MemFile

  datatype Place = Staging | Published

  /** A file: the process and name it was staged under, where it is, what it holds, and the call
      whose VMM has it open for writing. */
  datatype Inode = Inode(owner: Pid, kind: Kind, place: Place, bytes: Bytes, mtime: nat, writer: Option<TaskId>)

  datatype Integrity = Fast | Full

  /** How far a `verify` has come. The record it read is the one it goes by. */
  datatype Verify =
    | Start                 // are all three files there?
    | Read                  // read meta.json
    | Size(m: Meta)         // stat vmstate
    | Hash(m: Meta)         // digest vmstate
    | Mem(m: Meta)          // stat memfile
    | HashMem(m: Meta)      // digest memfile, at full strength

  datatype Stage =
    | OpenState | OpenMem | Writing | Dumped
    | StatePublished | BothPublished
    | Sized(len: nat) | StateHashed(len: nat, b3: Digest) | BothHashed(len: nat, b3: Digest, memB3: Digest)
    | MetaReady(m: Meta) | MetaStaged(m: Meta) | MetaPublished

  datatype Outcome =
    | Reused | Built | TimedOut(reached: bool) | Failed | Killed     // of ensure
    | Verified(level: Integrity, m: Meta) | Rejected                 // of verify

  datatype Pc =
    | Checking(wait: nat, v: Verify)        // ensure's first is_usable
    | Locking(deadline: nat)                // about to try the lock
    | Waiting(deadline: nat)                // it was held
    | Giving(reached: bool, v: Verify)      // is_usable once more without the lock
    | Rechecking(v: Verify)                 // is_usable under the lock
    | Building(stage: Stage)
    | Reading(level: Integrity, v: Verify)  // a reader's verify
    | Finished(outcome: Outcome)

  datatype Task = Task(pid: Pid, pc: Pc)

  datatype State = State(
    tasks: map<TaskId, Task>,
    lock: Option<TaskId>,
    inodes: map<Ino, Inode>, next: Ino,
    vmstate: Option<Ino>, memfile: Option<Ino>, meta: Option<Meta>,
    staged: map<(Pid, Kind), Ino>, stagedMeta: map<Pid, Meta>,
    now: nat, dead: set<Pid>,
    dumps: map<TaskId, (Bytes, Bytes)>,     // what each build's VMM had written when it closed the files
    published: seq<TaskId>)                 // the builds that renamed a meta.json into place

  datatype Role = Ensure(wait: nat) | Verifier(level: Integrity)

  datatype Event =
    | Begin(t: TaskId, pid: Pid, role: Role)
    | Advance(t: TaskId, fails: bool)
    | WriteOut(i: Ino, more: Bytes, mtime: nat)
    | Tick
    | Crash(pid: Pid)

  // -------------------------------------------------------------------- verify

  function ContentAt(s: State, name: Option<Ino>): Option<Bytes> {
    if name.Some? && name.value in s.inodes then Some(s.inodes[name.value].bytes) else None
  }

  predicate IsComplete(s: State) {
    s.vmstate.Some? && s.memfile.Some? && s.meta.Some?
  }

  datatype Progress = Go(v: Verify) | Pass(m: Meta) | Fail

  /** One step of `SnapshotArtifacts::verify`. */
  function VerifyStep(s: State, level: Integrity, v: Verify): Progress {
    match v
    case Start => if IsComplete(s) then Go(Read) else Fail
    case Read => if s.meta.Some? && s.meta.value.Recorded? then Go(Size(s.meta.value)) else Fail
    case Size(m) =>
      var content := ContentAt(s, s.vmstate);
      if content.Some? && m.Recorded? && |content.value| == m.vmstateBytes then Go(Hash(m)) else Fail
    case Hash(m) =>
      var content := ContentAt(s, s.vmstate);
      if content.Some? && m.Recorded? && Blake3(content.value) == m.vmstateB3 then Go(Mem(m)) else Fail
    case Mem(m) =>
      var content := ContentAt(s, s.memfile);
      if content.None? || !m.Recorded? || |content.value| != m.memfileBytes then Fail
      else if level.Full? then Go(HashMem(m))
      else if s.inodes[s.memfile.value].mtime == m.mtime then Pass(m) else Fail
    case HashMem(m) =>
      var content := ContentAt(s, s.memfile);
      if content.Some? && m.Recorded? && Blake3(content.value) == m.memfileB3 then Pass(m) else Fail
  }

  /** A whole `verify` of a directory that does not change meanwhile. */
  predicate Passes(s: State, level: Integrity) {
    && IsComplete(s) && s.meta.value.Recorded?
    && VerifyStep(s, level, Size(s.meta.value)).Go?
    && VerifyStep(s, level, Hash(s.meta.value)).Go?
    && (var mem := VerifyStep(s, level, Mem(s.meta.value));
        mem.Pass? || (mem.Go? && VerifyStep(s, level, HashMem(s.meta.value)).Pass?))
  }

  // --------------------------------------------------------------------- steps

  function SetPc(s: State, t: TaskId, pc: Pc): State
    requires t in s.tasks
  {
    s.(tasks := s.tasks[t := s.tasks[t].(pc := pc)])
  }

  /** Return from `ensure`; the guard drops the lock if this task has it. */
  function Return(s: State, t: TaskId, outcome: Outcome): State
    requires t in s.tasks
  {
    SetPc(s, t, Finished(outcome)).(lock := if s.lock == Some(t) then None else s.lock)
  }

  /** The builder VM's shutdown closes what it had open. */
  function Close(inodes: map<Ino, Inode>, t: TaskId): map<Ino, Inode> {
    map i | i in inodes :: if inodes[i].writer == Some(t) then inodes[i].(writer := None) else inodes[i]
  }

  /** A failed build tears its VM down and returns the error. */
  function GiveUp(s: State, t: TaskId): State
    requires t in s.tasks
  {
    Return(s, t, Failed).(inodes := Close(s.inodes, t))
  }

  /** The VMM opens a staging file, created or truncated. */
  function OpenStaging(s: State, t: TaskId, kind: Kind): State
    requires t in s.tasks
  {
    var pid := s.tasks[t].pid;
    var blank := Inode(pid, kind, Staging, [], 0, Some(t));
    if (pid, kind) in s.staged then s.(inodes := s.inodes[s.staged[(pid, kind)] := blank])
    else s.(inodes := s.inodes[s.next := blank], staged := s.staged[(pid, kind) := s.next], next := s.next + 1)
  }

  /** `rename` of a staging file to its published name. */
  function Publish(s: State, t: TaskId, kind: Kind): State
    requires t in s.tasks && (s.tasks[t].pid, kind) in s.staged && s.staged[(s.tasks[t].pid, kind)] in s.inodes
  {
    var name := (s.tasks[t].pid, kind);
    var i := s.staged[name];
    var moved := s.(inodes := s.inodes[i := s.inodes[i].(place := Published)], staged := s.staged - {name});
    if kind.VmState? then moved.(vmstate := Some(i)) else moved.(memfile := Some(i))
  }

  /** What a finished dump left under the staging names. */
  function DumpOf(s: State, t: TaskId): (Bytes, Bytes)
    requires t in s.tasks
  {
    var pid := s.tasks[t].pid;
    var state := ContentAt(s, if (pid, VmState) in s.staged then Some(s.staged[(pid, VmState)]) else None);
    var mem := ContentAt(s, if (pid, MemFile) in s.staged then Some(s.staged[(pid, MemFile)]) else None);
    (if state.Some? then state.value else [], if mem.Some? then mem.value else [])
  }

  /** One step of `build` and `write_meta`. */
  function BuildStep(s: State, t: TaskId, stage: Stage, fails: bool): State
    requires t in s.tasks
  {
    var pid := s.tasks[t].pid;
    // The length is read with a default: an error there is not an error of the build.
    if stage.BothPublished? then
      var content := ContentAt(s, s.vmstate);
      SetPc(s, t, Building(Sized(if fails || content.None? then 0 else |content.value|)))
    else if stage.MetaPublished? then Return(s, t, Built)
    else if fails then GiveUp(s, t)
    else
      match stage
      case OpenState => SetPc(OpenStaging(s, t, VmState), t, Building(OpenMem))
      case OpenMem => SetPc(OpenStaging(s, t, MemFile), t, Building(Writing))
      case Writing =>
        SetPc(s, t, Building(Dumped)).(inodes := Close(s.inodes, t), dumps := s.dumps[t := DumpOf(s, t)])
      case Dumped =>
        if (pid, VmState) in s.staged && s.staged[(pid, VmState)] in s.inodes then
          SetPc(Publish(s, t, VmState), t, Building(StatePublished))
        else GiveUp(s, t)
      case StatePublished =>
        if (pid, MemFile) in s.staged && s.staged[(pid, MemFile)] in s.inodes then
          SetPc(Publish(s, t, MemFile), t, Building(BothPublished))
        else GiveUp(s, t)
      case Sized(len) =>
        var content := ContentAt(s, s.vmstate);
        if content.None? then GiveUp(s, t) else SetPc(s, t, Building(StateHashed(len, Blake3(content.value))))
      case StateHashed(len, b3) =>
        var content := ContentAt(s, s.memfile);
        if content.None? then GiveUp(s, t) else SetPc(s, t, Building(BothHashed(len, b3, Blake3(content.value))))
      case BothHashed(len, b3, memB3) =>
        var content := ContentAt(s, s.memfile);
        if content.None? then GiveUp(s, t)
        else SetPc(s, t, Building(MetaReady(Recorded(t, len, |content.value|, b3, memB3, s.inodes[s.memfile.value].mtime))))
      case MetaReady(m) =>
        SetPc(s, t, Building(MetaStaged(m))).(stagedMeta := s.stagedMeta[pid := m])
      case MetaStaged(m) =>
        if pid in s.stagedMeta then
          SetPc(s, t, Building(MetaPublished)).(
            meta := Some(s.stagedMeta[pid]), stagedMeta := s.stagedMeta - {pid}, published := s.published + [t])
        else GiveUp(s, t)
  }

  function Checked(s: State, level: Integrity, v: Verify, fails: bool): Progress {
    if fails then Fail else VerifyStep(s, level, v)
  }

  /** Where a task that is not building goes next. */
  function NextPc(s: State, t: TaskId, fails: bool): Pc
    requires t in s.tasks && !s.tasks[t].pc.Building?
  {
    match s.tasks[t].pc
    case Checking(wait, v) =>
      (match Checked(s, Fast, v, fails)
       case Go(next) => Checking(wait, next)
       case Pass(_) => Finished(Reused)
       case Fail => Locking(s.now + wait))
    case Locking(deadline) =>
      if fails then Finished(Failed) else if s.lock.None? then Rechecking(Start) else Waiting(deadline)
    case Waiting(deadline) =>
      if IsComplete(s) || s.now >= deadline then Giving(s.now >= deadline, Start) else Locking(deadline)
    case Giving(reached, v) =>
      (match Checked(s, Fast, v, fails)
       case Go(next) => Giving(reached, next)
       case Pass(_) => Finished(Reused)
       case Fail => Finished(TimedOut(reached)))
    case Rechecking(v) =>
      (match Checked(s, Fast, v, fails)
       case Go(next) => Rechecking(next)
       case Pass(_) => Finished(Reused)
       case Fail => Building(OpenState))
    case Reading(level, v) =>
      (match Checked(s, level, v, fails)
       case Go(next) => Reading(level, next)
       case Pass(m) => Finished(Verified(level, m))
       case Fail => Finished(Rejected))
    case Finished(outcome) => Finished(outcome)
  }

  /** The lock is taken on the way to the check under it, and dropped with its guard. */
  function LockAfter(s: State, t: TaskId, pc: Pc): Option<TaskId>
    requires t in s.tasks
  {
    if s.tasks[t].pc.Locking? && pc.Rechecking? then Some(t)
    else if pc.Finished? && s.lock == Some(t) then None
    else s.lock
  }

  /** One step of a task. */
  function AdvanceTask(s: State, t: TaskId, fails: bool): State
    requires t in s.tasks
  {
    if s.tasks[t].pc.Building? then BuildStep(s, t, s.tasks[t].pc.stage, fails)
    else
      var pc := NextPc(s, t, fails);
      SetPc(s, t, pc).(lock := LockAfter(s, t, pc))
  }

  predicate HolderDies(s: State, pid: Pid) {
    s.lock.Some? && s.lock.value in s.tasks && s.tasks[s.lock.value].pid == pid
  }

  /** The process is gone and its lock with it. A VMM it had started lives on, files open. */
  function Crashed(s: State, pid: Pid): State {
    s.(tasks := map t | t in s.tasks :: if s.tasks[t].pid == pid && !s.tasks[t].pc.Finished? then s.tasks[t].(pc := Finished(Killed)) else s.tasks[t],
       lock := if HolderDies(s, pid) then None else s.lock,
       dead := s.dead + {pid})
  }

  /** An event that cannot happen in a state leaves it unchanged. */
  function Step(s: State, e: Event): State {
    match e
    case Begin(t, pid, role) =>
      if t in s.tasks || t in s.dumps || pid in s.dead then s
      else s.(tasks := s.tasks[t := Task(pid, if role.Ensure? then Checking(role.wait, Start) else Reading(role.level, Start))])
    case Advance(t, fails) => if t in s.tasks then AdvanceTask(s, t, fails) else s
    case WriteOut(i, more, mtime) =>
      if i in s.inodes && s.inodes[i].writer.Some? then
        s.(inodes := s.inodes[i := s.inodes[i].(bytes := s.inodes[i].bytes + more, mtime := mtime)])
      else s
    case Tick => s.(now := s.now + 1)
    case Crash(pid) => Crashed(s, pid)
  }

  function Run(s: State, events: seq<Event>): State {
    if events == [] then s else Step(Run(s, events[..|events| - 1]), events[|events| - 1])
  }

  /** A record whose digests are those of what its author's VMM wrote. */
  predicate Sound(dumps: map<TaskId, (Bytes, Bytes)>, m: Meta) {
    m.Recorded? ==>
      && m.author in dumps
      && m.vmstateB3 == Blake3(dumps[m.author].0) && m.memfileB3 == Blake3(dumps[m.author].1)
  }

  /** Any directory with nobody at work: published files or not, with or without a record, and a
      record that fits the files or does not. The bytes a record's digests are of stand as the
      dump of its author, a build of some earlier run. */
  predicate IsStart(s: State) {
    && s.tasks == map[] && s.lock == None && s.staged == map[] && s.stagedMeta == map[] && s.published == [] && s.dead == {}
    && (s.meta.Some? ==> Sound(s.dumps, s.meta.value))
    && (forall i :: i in s.inodes ==> i < s.next && s.inodes[i].writer == None && s.inodes[i].place == Published)
    && (s.vmstate.Some? ==> s.vmstate.value in s.inodes)
    && (s.memfile.Some? ==> s.memfile.value in s.inodes)
  }
}
