/** Runs that exist, put together step by step: calls that come to the lock, wait behind it, build,
    crash and finish. */
module SnapshotRuns {
  import opened Wrappers
  import opened Bytes
  import opened SnapshotProtocol
  import opened SnapshotSafety
  import opened SnapshotCalm

  /** Some run in which of the deciding reads only those may fail ends in `s`. */
  ghost predicate Reaches(start: State, allowed: set<Deciding>, s: State) {
    exists events :: OnlyFail(start, events, allowed) && Run(start, events) == s
  }

  predicate Permitted(allowed: set<Deciding>, s: State, e: Event) {
    FailedRead(s, e).Some? ==> FailedRead(s, e).value in allowed
  }

  lemma ReachesStart(start: State, allowed: set<Deciding>)
    ensures Reaches(start, allowed, start)
  {
    assert OnlyFail(start, [], allowed) && Run(start, []) == start;
  }

  lemma Then(start: State, allowed: set<Deciding>, s: State, e: Event)
    requires Reaches(start, allowed, s) && Permitted(allowed, s, e)
    ensures Reaches(start, allowed, Step(s, e))
  {
    var events :| OnlyFail(start, events, allowed) && Run(start, events) == s;
    var more := events + [e];
    assert more[..|more| - 1] == events;
    assert OnlyFail(start, more, allowed) && Run(start, more) == Step(s, e);
  }

  /** A call of its own process at some point of its way. */
  function Moved(s: State, t: TaskId, pc: Pc): State {
    s.(tasks := s.tasks[t := Task(t, pc)])
  }

  lemma MovedTwice(s: State, t: TaskId, a: Pc, b: Pc)
    ensures Moved(Moved(s, t, a), t, b) == Moved(s, t, b)
  {
    assert s.tasks[t := Task(t, a)][t := Task(t, b)] == s.tasks[t := Task(t, b)];
  }

  /** A call moves on without taking or dropping the lock. */
  lemma MovesTo(start: State, allowed: set<Deciding>, s: State, t: TaskId, from: Pc, to: Pc, fails: bool)
    requires Reaches(start, allowed, Moved(s, t, from)) && Permitted(allowed, Moved(s, t, from), Advance(t, fails))
    requires !from.Building? && NextPc(Moved(s, t, from), t, fails) == to && LockAfter(Moved(s, t, from), t, to) == s.lock
    ensures Reaches(start, allowed, Moved(s, t, to))
  {
    hide Reaches;
    Then(start, allowed, Moved(s, t, from), Advance(t, fails));
    MovedTwice(s, t, from, to);
  }

  /** No call has come by that number, and no process of it has died. */
  predicate NewTask(s: State, t: TaskId) {
    t !in s.tasks && t !in s.dumps && t !in s.dead
  }

  lemma {:induction false} Above(ids: set<TaskId>) returns (n: TaskId)
    ensures forall i :: i in ids ==> i < n
  {
    if ids == {} {
      n := 0;
    } else {
      var i :| i in ids;
      var rest := Above(ids - {i});
      n := if i < rest then rest else i + 1;
      assert forall j :: j in ids ==> j == i || j in ids - {i};
    }
  }

  lemma SomeNewTask(s: State) returns (t: TaskId)
    ensures NewTask(s, t) && Some(t) != s.lock
  {
    t := Above(s.tasks.Keys + s.dumps.Keys + s.dead + (if s.lock.Some? then {s.lock.value} else {}));
    assert t !in s.tasks.Keys + s.dumps.Keys + s.dead + (if s.lock.Some? then {s.lock.value} else {});
  }

  // ------------------------------------------------------------ checks that fail

  /** The three checks a call makes on the hot path, and where it goes when one fails. */
  datatype Check = First | Waited | Locked

  function PcOf(c: Check, v: Verify): Pc {
    match c
    case First => Checking(1, v)
    case Waited => Giving(false, v)
    case Locked => Rechecking(v)
  }

  function AfterFail(s: State, c: Check): Pc {
    match c
    case First => Locking(s.now + 1)
    case Waited => Finished(TimedOut(false))
    case Locked => Building(OpenState)
  }

  function StepsLeft(v: Verify): nat {
    match v
    case Start => 5
    case Read => 4
    case Size(_) => 3
    case Hash(_) => 2
    case Mem(_) => 1
    case HashMem(_) => 0
  }

  /** In a directory that does not pass, a check comes to its end without any error. */
  lemma {:induction false} CheckFails(start: State, allowed: set<Deciding>, s: State, t: TaskId, c: Check, v: Verify)
    requires Reaches(start, allowed, Moved(s, t, PcOf(c, v))) && Confirmed(s, v) && !Passes(s, Fast)
    requires c.Locked? <==> s.lock == Some(t)
    ensures Reaches(start, allowed, Moved(s, t, AfterFail(s, c)))
    decreases StepsLeft(v)
  {
    hide Reaches;
    ConfirmedDecides(s, v);
    assert VerifyStep(Moved(s, t, PcOf(c, v)), Fast, v) == VerifyStep(s, Fast, v);
    if VerifyStep(s, Fast, v).Go? {
      var next := VerifyStep(s, Fast, v).v;
      MovesTo(start, allowed, s, t, PcOf(c, v), PcOf(c, next), false);
      CheckFails(start, allowed, s, t, c, next);
    } else {
      MovesTo(start, allowed, s, t, PcOf(c, v), AfterFail(s, c), false);
    }
  }

  /** Whatever the directory, a check fails when its first read does. */
  lemma CheckErrs(start: State, allowed: set<Deciding>, s: State, t: TaskId, c: Check)
    requires Reaches(start, allowed, Moved(s, t, PcOf(c, Start)))
    requires (c.Waited? ==> AfterWait in allowed) && (c.Locked? ==> UnderLock in allowed)
    requires c.Locked? <==> s.lock == Some(t)
    ensures Reaches(start, allowed, Moved(s, t, AfterFail(s, c)))
  {
    hide Reaches;
    MovesTo(start, allowed, s, t, PcOf(c, Start), AfterFail(s, c), true);
  }

  /** A new call comes as far as the lock. */
  lemma ComesToTheLock(start: State, allowed: set<Deciding>, s: State, t: TaskId)
    requires Reaches(start, allowed, s) && NewTask(s, t) && s.lock != Some(t)
    ensures Reaches(start, allowed, Moved(s, t, Locking(s.now + 1)))
  {
    hide Reaches;
    Then(start, allowed, s, Begin(t, t, Ensure(1)));
    assert Step(s, Begin(t, t, Ensure(1))) == Moved(s, t, Checking(1, Start));
    if Passes(s, Fast) {
      CheckErrs(start, allowed, s, t, First);
    } else {
      CheckFails(start, allowed, s, t, First, Start);
    }
  }

  /** And takes it when it is free. */
  function LockedBy(s: State, t: TaskId): State {
    s.(lock := Some(t))
  }

  lemma TakesTheLock(start: State, allowed: set<Deciding>, s: State, t: TaskId)
    requires Reaches(start, allowed, s) && s.lock == None && NewTask(s, t)
    ensures Reaches(start, allowed, Moved(LockedBy(s, t), t, Rechecking(Start)))
  {
    hide Reaches;
    ComesToTheLock(start, allowed, s, t);
    var at := Moved(s, t, Locking(s.now + 1));
    Then(start, allowed, at, Advance(t, false));
    MovedTwice(s, t, Locking(s.now + 1), Rechecking(Start));
    assert Step(at, Advance(t, false)) == Moved(at, t, Rechecking(Start)).(lock := Some(t));
  }

  // --------------------------------------------------------------------- a build

  /** Nobody holds the lock, and nothing is staged or open. */
  ghost predicate Quiet(s: State) {
    && s.lock == None && s.staged == map[] && s.stagedMeta == map[]
    && (forall i :: i in s.inodes ==> i < s.next && s.inodes[i].writer == None)
    && (forall t :: t in s.tasks ==> s.tasks[t].pid == t)
  }

  lemma StartsToBuild(start: State, allowed: set<Deciding>, s: State, t: TaskId)
    requires Reaches(start, allowed, s) && Quiet(s) && NewTask(s, t) && (!Passes(s, Fast) || UnderLock in allowed)
    ensures Reaches(start, allowed, Moved(LockedBy(s, t), t, Building(OpenState)))
  {
    hide Reaches;
    TakesTheLock(start, allowed, s, t);
    if Passes(s, Fast) {
      CheckErrs(start, allowed, LockedBy(s, t), t, Locked);
    } else {
      assert !Passes(LockedBy(s, t), Fast);
      CheckFails(start, allowed, LockedBy(s, t), t, Locked, Start);
    }
  }

  /** What a dump is: the two files' bytes, and the time the memory file was last written. */
  datatype Dump = Dump(state: Bytes, mem: Bytes, mtime: nat)

  const NO_BYTES := Dump([], [], 0)

  /** The two files of a build, at some point of it. */
  function WithFiles(s: State, state: Inode, mem: Inode): map<Ino, Inode> {
    s.inodes[s.next := state][s.next + 1 := mem]
  }

  function Opened(s: State, t: TaskId, d: Dump): State {
    Moved(s, t, Building(Writing)).(
      inodes := WithFiles(s, Inode(t, VmState, Staging, d.state, 0, Some(t)), Inode(t, MemFile, Staging, d.mem, d.mtime, Some(t))),
      staged := map[(t, VmState) := s.next][(t, MemFile) := s.next + 1], next := s.next + 2)
  }

  function DumpedBy(s: State, t: TaskId, d: Dump): State {
    Opened(s, t, d).(
      tasks := s.tasks[t := Task(t, Building(Dumped))],
      inodes := WithFiles(s, Inode(t, VmState, Staging, d.state, 0, None), Inode(t, MemFile, Staging, d.mem, d.mtime, None)),
      dumps := s.dumps[t := (d.state, d.mem)])
  }

  /** Both files in place, the record not yet. */
  function Placed(s: State, t: TaskId, d: Dump): State {
    LockedBy(Moved(s, t, Building(BothPublished)), t).(
      inodes := WithFiles(s, Inode(t, VmState, Published, d.state, 0, None), Inode(t, MemFile, Published, d.mem, d.mtime, None)),
      next := s.next + 2, vmstate := Some(s.next), memfile := Some(s.next + 1), dumps := s.dumps[t := (d.state, d.mem)])
  }

  lemma Opens(start: State, allowed: set<Deciding>, s: State, t: TaskId)
    requires Reaches(start, allowed, Moved(s, t, Building(OpenState))) && s.staged == map[]
    ensures Reaches(start, allowed, Opened(s, t, NO_BYTES))
  {
    hide Reaches;
    var s0 := Moved(s, t, Building(OpenState));
    Then(start, allowed, s0, Advance(t, false));
    var s1 := Step(s0, Advance(t, false));
    MovedTwice(s, t, Building(OpenState), Building(OpenMem));
    assert s1 == SetPc(OpenStaging(s0, t, VmState), t, Building(OpenMem));
    Then(start, allowed, s1, Advance(t, false));
    MovedTwice(s, t, Building(OpenMem), Building(Writing));
    assert Step(s1, Advance(t, false)) == SetPc(OpenStaging(s1, t, MemFile), t, Building(Writing));
    assert Step(s1, Advance(t, false)).tasks == Opened(s, t, NO_BYTES).tasks;
  }

  /** Its vmstate written. */
  function HalfWritten(s: State, t: TaskId, d: Dump): State {
    Opened(s, t, NO_BYTES.(state := d.state))
  }

  lemma WritesState(s: State, t: TaskId, d: Dump)
    ensures Step(Opened(s, t, NO_BYTES), WriteOut(s.next, d.state, 0)) == HalfWritten(s, t, d)
  {
    assert [] + d.state == d.state;
    assert Step(Opened(s, t, NO_BYTES), WriteOut(s.next, d.state, 0)).inodes == HalfWritten(s, t, d).inodes;
  }

  lemma WritesMem(s: State, t: TaskId, d: Dump)
    ensures Step(HalfWritten(s, t, d), WriteOut(s.next + 1, d.mem, d.mtime)) == Opened(s, t, d)
  {
    assert [] + d.mem == d.mem;
    assert Step(HalfWritten(s, t, d), WriteOut(s.next + 1, d.mem, d.mtime)).inodes == Opened(s, t, d).inodes;
  }

  lemma Writes(start: State, allowed: set<Deciding>, s: State, t: TaskId, d: Dump)
    requires Reaches(start, allowed, Opened(s, t, NO_BYTES))
    ensures Reaches(start, allowed, Opened(s, t, d))
  {
    hide Reaches, Step, Opened;
    Then(start, allowed, Opened(s, t, NO_BYTES), WriteOut(s.next, d.state, 0));
    WritesState(s, t, d);
    Then(start, allowed, HalfWritten(s, t, d), WriteOut(s.next + 1, d.mem, d.mtime));
    WritesMem(s, t, d);
  }

  lemma Closes(start: State, allowed: set<Deciding>, s: State, t: TaskId, d: Dump)
    requires Reaches(start, allowed, Opened(s, t, d))
    requires forall i :: i in s.inodes ==> i < s.next && s.inodes[i].writer.None?
    ensures Reaches(start, allowed, DumpedBy(s, t, d))
  {
    hide Reaches;
    var s0 := Opened(s, t, d);
    Then(start, allowed, s0, Advance(t, false));
    assert Step(s0, Advance(t, false)) == BuildStep(s0, t, Writing, false);
    assert Close(s0.inodes, t) == DumpedBy(s, t, d).inodes;
    assert DumpOf(s0, t) == (d.state, d.mem);
    assert s0.tasks[t := Task(t, Building(Dumped))] == s.tasks[t := Task(t, Building(Dumped))];
  }

  /** The vmstate in place, the memory file still staged. */
  function HalfPlaced(s: State, t: TaskId, d: Dump): State {
    DumpedBy(s, t, d).(
      tasks := s.tasks[t := Task(t, Building(StatePublished))],
      inodes := WithFiles(s, Inode(t, VmState, Published, d.state, 0, None), Inode(t, MemFile, Staging, d.mem, d.mtime, None)),
      staged := map[(t, MemFile) := s.next + 1], vmstate := Some(s.next))
  }

  lemma StagedLess(t: TaskId, n: Ino)
    ensures map[(t, VmState) := n][(t, MemFile) := n + 1] - {(t, VmState)} == map[(t, MemFile) := n + 1]
    ensures map[(t, MemFile) := n + 1] - {(t, MemFile)} == map[]
  {
  }

  lemma FileReplaced(s: State, a: Inode, b: Inode, c: Inode)
    ensures WithFiles(s, a, b)[s.next := c] == WithFiles(s, c, b)
    ensures WithFiles(s, a, b)[s.next + 1 := c] == WithFiles(s, a, c)
  {
  }

  lemma StatePublish(s0: State, t: TaskId, n: Ino, file: Inode)
    requires t in s0.tasks && s0.tasks[t].pid == t && n in s0.inodes && s0.inodes[n] == file
    requires s0.staged == map[(t, VmState) := n][(t, MemFile) := n + 1]
    ensures (t, VmState) in s0.staged && s0.staged[(t, VmState)] == n
    ensures Publish(s0, t, VmState)
         == s0.(inodes := s0.inodes[n := file.(place := Published)], staged := map[(t, MemFile) := n + 1], vmstate := Some(n))
  {
    StagedLess(t, n);
  }

  lemma PublishesState(s: State, t: TaskId, d: Dump)
    ensures BuildStep(DumpedBy(s, t, d), t, Dumped, false) == HalfPlaced(s, t, d)
  {
    hide Publish;
    var file := Inode(t, VmState, Staging, d.state, 0, None);
    StatePublish(DumpedBy(s, t, d), t, s.next, file);
    FileReplaced(s, file, Inode(t, MemFile, Staging, d.mem, d.mtime, None), file.(place := Published));
    MovedTwice(s, t, Building(Dumped), Building(StatePublished));
  }

  lemma PublishesMem(s: State, t: TaskId, d: Dump)
    requires s.staged == map[] && s.lock == Some(t)
    ensures BuildStep(HalfPlaced(s, t, d), t, StatePublished, false) == Placed(s, t, d)
  {
    var s0, file := HalfPlaced(s, t, d), Inode(t, MemFile, Staging, d.mem, d.mtime, None);
    StagedLess(t, s.next);
    FileReplaced(s, Inode(t, VmState, Published, d.state, 0, None), file, file.(place := Published));
    MovedTwice(s, t, Building(StatePublished), Building(BothPublished));
    assert s0.staged[(t, MemFile)] == s.next + 1 && s0.inodes[s.next + 1] == file;
  }

  lemma Publishes(start: State, allowed: set<Deciding>, s: State, t: TaskId, d: Dump)
    requires Reaches(start, allowed, DumpedBy(s, t, d)) && s.staged == map[] && s.lock == Some(t)
    ensures Reaches(start, allowed, Placed(s, t, d))
  {
    hide Reaches;
    Then(start, allowed, DumpedBy(s, t, d), Advance(t, false));
    PublishesState(s, t, d);
    Then(start, allowed, HalfPlaced(s, t, d), Advance(t, false));
    PublishesMem(s, t, d);
  }

  /** A new call puts any two files in place, in a directory that does not pass, or with an error in
      its check under the lock. */
  lemma Places(start: State, allowed: set<Deciding>, s: State, t: TaskId, d: Dump)
    requires Reaches(start, allowed, s) && Quiet(s) && NewTask(s, t) && (!Passes(s, Fast) || UnderLock in allowed)
    ensures Reaches(start, allowed, Placed(s, t, d))
  {
    hide Reaches;
    StartsToBuild(start, allowed, s, t);
    var at := LockedBy(s, t);
    Opens(start, allowed, at, t);
    Writes(start, allowed, at, t, d);
    Closes(start, allowed, at, t, d);
    Publishes(start, allowed, at, t, d);
    assert Placed(at, t, d) == Placed(s, t, d);
  }

  // -------------------------------------------------- how a build with its files in place ends

  /** The builder's process dies: its files stay, under the old record. */
  function Replaced(s: State, t: TaskId, d: Dump): State {
    Placed(s, t, d).(tasks := s.tasks[t := Task(t, Finished(Killed))], lock := None, dead := s.dead + {t})
  }

  lemma Replaces(start: State, allowed: set<Deciding>, s: State, t: TaskId, d: Dump)
    requires Reaches(start, allowed, s) && Quiet(s) && NewTask(s, t) && (!Passes(s, Fast) || UnderLock in allowed)
    ensures Reaches(start, allowed, Replaced(s, t, d)) && Quiet(Replaced(s, t, d))
  {
    hide Reaches;
    Places(start, allowed, s, t, d);
    var s0 := Placed(s, t, d);
    Then(start, allowed, s0, Crash(t));
    assert Crashed(s0, t).tasks == Replaced(s, t, d).tasks;
  }

  /** The record of a build, its length lost or not. */
  function RecordOf(t: TaskId, d: Dump, lost: bool): Meta {
    Recorded(t, if lost then 0 else |d.state|, |d.mem|, Blake3(d.state), Blake3(d.mem), d.mtime)
  }

  /** The record is in place, and the builder has still to return. */
  function RecordedBy(s: State, t: TaskId, d: Dump, lost: bool): State {
    Placed(s, t, d).(tasks := s.tasks[t := Task(t, Building(MetaPublished))], meta := Some(RecordOf(t, d, lost)),
                     published := s.published + [t])
  }

  function BuiltBy(s: State, t: TaskId, d: Dump, lost: bool): State {
    RecordedBy(s, t, d, lost).(tasks := s.tasks[t := Task(t, Finished(Built))], lock := None)
  }

  function AtStage(s: State, t: TaskId, stage: Stage): State {
    s.(tasks := s.tasks[t := Task(t, Building(stage))])
  }

  /** One step of the builder that touches nothing but its own place. */
  lemma StepsTo(start: State, allowed: set<Deciding>, s: State, t: TaskId, from: Stage, to: Stage, fails: bool)
    requires Reaches(start, allowed, AtStage(s, t, from)) && Permitted(allowed, AtStage(s, t, from), Advance(t, fails))
    requires BuildStep(AtStage(s, t, from), t, from, fails) == SetPc(AtStage(s, t, from), t, Building(to))
    ensures Reaches(start, allowed, AtStage(s, t, to))
  {
    hide Reaches;
    Then(start, allowed, AtStage(s, t, from), Advance(t, fails));
    assert s.tasks[t := Task(t, Building(from))][t := Task(t, Building(to))] == s.tasks[t := Task(t, Building(to))];
  }

  lemma DigestsState(start: State, allowed: set<Deciding>, s: State, t: TaskId, d: Dump, lost: bool)
    requires Reaches(start, allowed, Placed(s, t, d)) && (lost ==> Length in allowed)
    ensures Reaches(start, allowed, AtStage(Placed(s, t, d), t, StateHashed(if lost then 0 else |d.state|, Blake3(d.state))))
  {
    hide Reaches;
    var p := Placed(s, t, d);
    var len := if lost then 0 else |d.state|;
    assert p == AtStage(p, t, BothPublished) by {
      assert p.tasks == p.tasks[t := Task(t, Building(BothPublished))];
    }
    StepsTo(start, allowed, p, t, BothPublished, Sized(len), lost);
    StepsTo(start, allowed, p, t, Sized(len), StateHashed(len, Blake3(d.state)), false);
  }

  lemma DigestsMem(start: State, allowed: set<Deciding>, s: State, t: TaskId, d: Dump, lost: bool)
    requires Reaches(start, allowed, AtStage(Placed(s, t, d), t, StateHashed(if lost then 0 else |d.state|, Blake3(d.state))))
    ensures Reaches(start, allowed, AtStage(Placed(s, t, d), t, MetaReady(RecordOf(t, d, lost))))
  {
    hide Reaches;
    var p := Placed(s, t, d);
    var len := if lost then 0 else |d.state|;
    StepsTo(start, allowed, p, t, StateHashed(len, Blake3(d.state)), BothHashed(len, Blake3(d.state), Blake3(d.mem)), false);
    StepsTo(start, allowed, p, t, BothHashed(len, Blake3(d.state), Blake3(d.mem)), MetaReady(RecordOf(t, d, lost)), false);
  }

  lemma Records(start: State, allowed: set<Deciding>, s: State, t: TaskId, d: Dump, lost: bool)
    requires Reaches(start, allowed, Placed(s, t, d)) && s.stagedMeta == map[] && (lost ==> Length in allowed)
    ensures Reaches(start, allowed, RecordedBy(s, t, d, lost))
  {
    hide Reaches;
    DigestsState(start, allowed, s, t, d, lost);
    DigestsMem(start, allowed, s, t, d, lost);
    var m := RecordOf(t, d, lost);
    var s0 := AtStage(Placed(s, t, d), t, MetaReady(m));
    Then(start, allowed, s0, Advance(t, false));
    var s1 := SetPc(s0, t, Building(MetaStaged(m))).(stagedMeta := map[t := m]);
    assert Step(s0, Advance(t, false)) == s1;
    Then(start, allowed, s1, Advance(t, false));
    var s2 := Step(s1, Advance(t, false));
    assert s2 == BuildStep(s1, t, MetaStaged(m), false);
    assert s2.tasks == RecordedBy(s, t, d, lost).tasks && s2.stagedMeta == map[];
  }

  /** A whole build by a new call. */
  lemma Builds(start: State, allowed: set<Deciding>, s: State, t: TaskId, d: Dump, lost: bool)
    requires Reaches(start, allowed, s) && Quiet(s) && NewTask(s, t) && (!Passes(s, Fast) || UnderLock in allowed)
    requires lost ==> Length in allowed
    ensures Reaches(start, allowed, RecordedBy(s, t, d, lost))
    ensures Reaches(start, allowed, BuiltBy(s, t, d, lost)) && Quiet(BuiltBy(s, t, d, lost))
  {
    hide Reaches;
    Places(start, allowed, s, t, d);
    Records(start, allowed, s, t, d, lost);
    var r := RecordedBy(s, t, d, lost);
    Then(start, allowed, r, Advance(t, false));
    assert Step(r, Advance(t, false)) == Return(r, t, Built);
    assert r.tasks[t := Task(t, Finished(Built))] == s.tasks[t := Task(t, Finished(Built))];
  }

  /** It passes when its length was read. */
  lemma BuiltPasses(s: State, t: TaskId, d: Dump)
    ensures Passes(BuiltBy(s, t, d, false), Fast)
  {
  }

  /** Bytes that a record does not describe. */
  function Unlike(m: Meta): Bytes {
    if m.Recorded? && m.vmstateBytes == 0 then [0] else []
  }

  lemma PlacedUnlike(s: State, t: TaskId, d: Dump)
    requires s.meta.Some? && d.state == Unlike(s.meta.value)
    ensures !Passes(Placed(s, t, d), Fast)
  {
  }
}
