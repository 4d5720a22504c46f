/** What a run with no outside writer or remover keeps, from any directory, as long as the reads on
    which a decision hangs succeed. */
module SnapshotCalm {
  import opened Wrappers
  import opened Bytes
  import opened SnapshotProtocol
  import opened SnapshotSafety

  /** The reads on which a decision hangs: the check made under the lock, the length recorded for
      vmstate, and the check after waiting. */
  datatype Deciding = UnderLock | Length | AfterWait

  /** The one of them that fails in a step, for an outside reason. */
  function FailedRead(s: State, e: Event): Option<Deciding> {
    if !e.Advance? || !e.fails || e.t !in s.tasks then None
    else
      match s.tasks[e.t].pc
      case Rechecking(_) => Some(UnderLock)
      case Building(BothPublished) => Some(Length)
      case Giving(_, _) => Some(AfterWait)
      case _ => None
  }

  /** Of these reads only some fail in the run. */
  predicate OnlyFail(start: State, events: seq<Event>, allowed: set<Deciding>) {
    events == []
    || (var before := events[..|events| - 1];
        var failed := FailedRead(Run(start, before), events[|events| - 1]);
        OnlyFail(start, before, allowed) && (failed.Some? ==> failed.value in allowed))
  }

  /** None fails, with `waits`; without it, the check after waiting may. */
  predicate CleanRun(start: State, events: seq<Event>, waits: bool) {
    OnlyFail(start, events, if waits then {} else {AfterWait})
  }

  predicate CleanStep(s: State, e: Event, waits: bool) {
    FailedRead(s, e).Some? ==> !waits && FailedRead(s, e) == Some(AfterWait)
  }

  // ---------------------------------------------- the directory, against its start

  /** Someone in this run has published, or the directory was usable to begin with. */
  predicate Settled(start: State, s: State) {
    s.published != [] || Passes(start, Fast)
  }

  /** The file is one of this run's builds, in place or replaced since. */
  predicate MadeHere(start: State, s: State, i: Ino) {
    i in s.inodes && i >= start.next && s.inodes[i].place.Published?
  }

  predicate NewState(start: State, s: State) {
    s.vmstate.Some? && MadeHere(start, s, s.vmstate.value) && s.inodes[s.vmstate.value].kind.VmState?
  }

  predicate NewMem(start: State, s: State) {
    s.memfile.Some? && MadeHere(start, s, s.memfile.value) && s.inodes[s.memfile.value].kind.MemFile?
  }

  /** The directory's own files are as they were; its names stand for them or for this run's. */
  ghost predicate FromStart(start: State, s: State) {
    && start.next <= s.next
    && (forall i :: i in start.inodes ==> i in s.inodes && s.inodes[i] == start.inodes[i])
    && (forall name :: name in s.staged ==> s.staged[name] >= start.next)
    && (s.vmstate == start.vmstate || NewState(start, s))
    && (s.memfile == start.memfile || NewMem(start, s))
  }

  /** The record of a build of this run, with its files in place. */
  predicate RecordsItsBuild(s: State) {
    && s.meta.Some? && s.meta.value.Recorded?
    && var m := s.meta.value;
       && BothHold(s, m.author) && m.vmstateBytes == |s.dumps[m.author].0| && m.memfileBytes == |s.dumps[m.author].1|
       && s.inodes[s.memfile.value].mtime == m.mtime
  }

  /** Before the first publication the record is the start's; then there is one and no more. A
      usable directory is left alone. */
  predicate Phase(start: State, s: State) {
    && (s.published == [] ==> s.meta == start.meta)
    && (s.published != [] ==> RecordsItsBuild(s) && s.published == [s.meta.value.author])
    && (Passes(start, Fast) ==>
          s.published == [] && s.vmstate == start.vmstate && s.memfile == start.memfile && s.next == start.next)
  }

  /** A build of this run has put in place a file the start's record could be taken to describe:
      the very vmstate it digested, or a memory file with its mtime or its digest. */
  predicate Resembles(start: State, s: State, i: Ino) {
    && MadeHere(start, s, i) && start.meta.Some? && start.meta.value.Recorded?
    && var file, m := s.inodes[i], start.meta.value;
       if file.kind.VmState? then Blake3(file.bytes) == m.vmstateB3
       else file.mtime == m.mtime || Blake3(file.bytes) == m.memfileB3
  }

  ghost predicate Coincides(start: State, s: State) {
    exists i :: Resembles(start, s, i)
  }

  predicate StateFits(start: State) {
    && start.meta.Some? && start.meta.value.Recorded?
    && VerifyStep(start, Fast, Size(start.meta.value)).Go? && VerifyStep(start, Fast, Hash(start.meta.value)).Go?
  }

  // ------------------------------------------------------------- what a check knows

  /** What a check that goes by the start's record has found: of the start's own files, unless a
      build has replaced them meanwhile. */
  ghost predicate Tracked(start: State, s: State, v: Verify) {
    match v
    case Start => true
    case Read => true
    case Size(m) => true
    case Hash(m) => VerifyStep(start, Fast, Size(m)).Go? || NewState(start, s)
    case Mem(m) => StateFits(start) || Coincides(start, s)
    case HashMem(m) =>
      (StateFits(start) || Coincides(start, s)) && (VerifyStep(start, Full, Mem(m)).Go? || NewMem(start, s))
  }

  ghost predicate Carries(start: State, s: State, v: Verify) {
    v.Start? || v.Read? || (v.m.Recorded? && (IsCurrent(s, v.m) || (start.meta == Some(v.m) && Tracked(start, s, v))))
  }

  predicate IsCurrent(s: State, m: Meta) {
    s.published != [] && s.meta == Some(m)
  }

  /** What a verification that passed was of. */
  ghost predicate Vouched(start: State, s: State, level: Integrity, m: Meta) {
    m.Recorded? && (IsCurrent(s, m) || (start.meta == Some(m) && (Passes(start, level) || Coincides(start, s))))
  }

  predicate StillOld(stage: Stage) {
    stage.OpenState? || stage.OpenMem? || stage.Writing? || stage.Dumped?
  }

  /** The directory has a record to begin with, and it does not fit. */
  predicate StartsUnfit(start: State) {
    start.meta.Some? && !Passes(start, Fast)
  }

  ghost predicate PcCalm(start: State, s: State, t: TaskId, pc: Pc, waits: bool) {
    match pc
    case Checking(_, v) => Carries(start, s, v) && !v.HashMem?
    case Giving(reached, v) =>
      && Carries(start, s, v) && !v.HashMem?
      && (reached || StartsUnfit(start) || (Settled(start, s) && (v.Start? || v.Read? || s.meta == Some(v.m))))
    case Reading(level, v) => Carries(start, s, v) && (v.HashMem? ==> level.Full?)
    case Building(stage) =>
      if stage.MetaPublished? then s.published == [t]
      else s.published == [] && !Passes(start, Fast) && (StillOld(stage) ==> !Passes(s, Fast))
    case Finished(outcome) => OutcomeCalm(start, s, t, outcome, waits)
    case _ => true
  }

  ghost predicate OutcomeCalm(start: State, s: State, t: TaskId, outcome: Outcome, waits: bool) {
    match outcome
    case Reused => Settled(start, s) || Coincides(start, s)
    case Built => s.published == [t]
    case TimedOut(reached) => waits ==> reached || StartsUnfit(start)
    case Verified(level, m) => Vouched(start, s, level, m)
    case _ => true
  }

  ghost predicate TasksCalm(start: State, s: State, waits: bool) {
    forall t :: t in s.tasks ==> PcCalm(start, s, t, s.tasks[t].pc, waits)
  }

  /** The lengths the build has taken down are right. */
  predicate LengthsRight(s: State, t: TaskId, stage: Stage) {
    match stage
    case Sized(len) => t in s.dumps && len == |s.dumps[t].0|
    case StateHashed(len, _) => t in s.dumps && len == |s.dumps[t].0|
    case BothHashed(len, _, _) => t in s.dumps && len == |s.dumps[t].0|
    case MetaReady(m) => t in s.dumps && m.Recorded? && m.vmstateBytes == |s.dumps[t].0|
    case MetaStaged(m) => t in s.dumps && m.Recorded? && m.vmstateBytes == |s.dumps[t].0|
    case _ => true
  }

  predicate HolderCalm(s: State) {
    s.lock.Some? && s.lock.value in s.tasks && s.tasks[s.lock.value].pc.Building? ==>
      LengthsRight(s, s.lock.value, s.tasks[s.lock.value].pc.stage)
  }

  ghost predicate Calm(start: State, s: State, waits: bool) {
    FromStart(start, s) && Phase(start, s) && TasksCalm(start, s, waits) && HolderCalm(s)
  }

  // ---------------------------------------------------------------- verification

  /** A settled directory passes at the strength it is settled at, and so does each check of it
      that goes by its record. */
  lemma SettledPasses(start: State, s: State, level: Integrity, v: Verify)
    requires IsStart(start) && FromStart(start, s) && Phase(start, s) && MetaInv(s) && Settled(start, s)
    ensures Passes(s, level) <==> s.published != [] || Passes(start, level)
    ensures (v.Start? || v.Read? || s.meta == Some(v.m)) ==>
              !VerifyStep(s, Fast, v).Fail? || (v.HashMem? && s.published == [])
  {
    if s.published != [] {
      RecordedPasses(s, level);
    } else {
      SameAsStart(start, s, level);
      SameAsStart(start, s, Fast);
    }
  }

  lemma RecordedPasses(s: State, level: Integrity)
    requires RecordsItsBuild(s) && Sound(s.dumps, s.meta.value)
    ensures Passes(s, level)
  {
  }

  /** With its names and record as they were, the directory checks as it did. */
  lemma SameAsStart(start: State, s: State, level: Integrity)
    requires IsStart(start) && FromStart(start, s) && s.meta == start.meta && s.vmstate == start.vmstate && s.memfile == start.memfile
    ensures Passes(s, level) <==> Passes(start, level)
    ensures forall v :: VerifyStep(s, level, v) == VerifyStep(start, level, v)
  {
  }

  /** Under the lock: a check fails only where a whole one would, and passes only so. */
  lemma ConfirmedDecides(s: State, v: Verify)
    requires Confirmed(s, v)
    ensures VerifyStep(s, Fast, v).Fail? ==> !Passes(s, Fast)
    ensures VerifyStep(s, Fast, v).Pass? ==> Passes(s, Fast)
  {
  }

  /** A check that goes by the start's record, step by step. */
  lemma TrackState(start: State, s: State, level: Integrity, m: Meta)
    requires IsStart(start) && FromStart(start, s) && start.meta == Some(m) && m.Recorded?
    ensures VerifyStep(s, level, Size(m)).Go? ==> Tracked(start, s, Hash(m))
    ensures Tracked(start, s, Hash(m)) && VerifyStep(s, level, Hash(m)).Go? ==> Tracked(start, s, Mem(m))
  {
    if VerifyStep(s, level, Hash(m)).Go? && NewState(start, s) {
      assert Resembles(start, s, s.vmstate.value);
    }
  }

  lemma TrackMem(start: State, s: State, level: Integrity, m: Meta)
    requires IsStart(start) && FromStart(start, s) && start.meta == Some(m) && m.Recorded? && Tracked(start, s, Mem(m))
    ensures VerifyStep(s, level, Mem(m)).Go? ==> Tracked(start, s, HashMem(m))
    ensures VerifyStep(s, level, Mem(m)).Pass? ==> Passes(start, level) || Coincides(start, s)
  {
    if VerifyStep(s, level, Mem(m)).Pass? && NewMem(start, s) {
      assert Resembles(start, s, s.memfile.value);
    }
  }

  lemma TrackHashMem(start: State, s: State, m: Meta)
    requires IsStart(start) && FromStart(start, s) && start.meta == Some(m) && m.Recorded? && Tracked(start, s, HashMem(m))
    ensures VerifyStep(s, Full, HashMem(m)).Pass? ==> Passes(start, Full) || Coincides(start, s)
  {
    if VerifyStep(s, Full, HashMem(m)).Pass? && NewMem(start, s) {
      assert Resembles(start, s, s.memfile.value);
    }
  }

  /** One step of an unlocked check carries on what it has found, and vouches when it passes. */
  lemma CheckCarries(start: State, s: State, level: Integrity, v: Verify)
    requires IsStart(start) && FromStart(start, s) && Phase(start, s) && Carries(start, s, v) && (v.HashMem? ==> level.Full?)
    ensures match VerifyStep(s, level, v)
            case Go(next) => Carries(start, s, next) && (next.HashMem? ==> level.Full?)
            case Pass(m) => Vouched(start, s, level, m)
            case Fail => true
  {
    if v.Size? || v.Hash? || v.Mem? || v.HashMem? {
      if !IsCurrent(s, v.m) {
        match v {
          case Size(m) => TrackState(start, s, level, m);
          case Hash(m) => TrackState(start, s, level, m);
          case Mem(m) => TrackMem(start, s, level, m);
          case HashMem(m) => TrackHashMem(start, s, m);
          case _ =>
        }
      }
    }
  }

  // ------------------------------------------------------------------- what grows

  /** From `s` to `r` this run's published files stay as they are, and a settled directory keeps
      its record. */
  ghost predicate Grows(start: State, s: State, r: State) {
    && (forall i :: MadeHere(start, s, i) ==> MadeHere(start, r, i) && r.inodes[i] == s.inodes[i])
    && (NewState(start, s) ==> NewState(start, r)) && (NewMem(start, s) ==> NewMem(start, r))
    && (Settled(start, s) ==> r.meta == s.meta && r.published == s.published)
  }

  lemma CoincidesGrows(start: State, s: State, r: State)
    requires Grows(start, s, r) && Coincides(start, s)
    ensures Coincides(start, r)
  {
    var i :| Resembles(start, s, i);
    assert Resembles(start, r, i);
  }

  lemma CarriesGrows(start: State, s: State, r: State, v: Verify)
    requires Grows(start, s, r) && Carries(start, s, v)
    ensures Carries(start, r, v)
  {
    if Coincides(start, s) {
      CoincidesGrows(start, s, r);
    }
  }

  lemma OutcomeGrows(start: State, s: State, r: State, t: TaskId, outcome: Outcome, waits: bool)
    requires Grows(start, s, r) && OutcomeCalm(start, s, t, outcome, waits)
    ensures OutcomeCalm(start, r, t, outcome, waits)
  {
    if Coincides(start, s) {
      CoincidesGrows(start, s, r);
    }
  }

  lemma PcGrows(start: State, s: State, r: State, t: TaskId, pc: Pc, waits: bool)
    requires Grows(start, s, r) && PcCalm(start, s, t, pc, waits)
    requires pc.Building? ==> r.published == s.published && (StillOld(pc.stage) ==> (Passes(r, Fast) <==> Passes(s, Fast)))
    ensures PcCalm(start, r, t, pc, waits)
  {
    match pc {
      case Checking(_, v) => CarriesGrows(start, s, r, v);
      case Giving(_, v) => CarriesGrows(start, s, r, v);
      case Reading(_, v) => CarriesGrows(start, s, r, v);
      case Finished(outcome) => OutcomeGrows(start, s, r, t, outcome, waits);
      case _ =>
    }
  }

  /** Everyone but `t` stays calm. */
  lemma OthersStayCalm(start: State, s: State, r: State, t: TaskId, waits: bool)
    requires TasksCalm(start, s, waits) && Grows(start, s, r)
    requires forall u :: u in r.tasks && u != t ==> u in s.tasks && r.tasks[u] == s.tasks[u]
    requires forall u :: u in r.tasks && u != t && s.tasks[u].pc.Building? ==>
               r.published == s.published && (Passes(r, Fast) <==> Passes(s, Fast))
    requires t in r.tasks ==> PcCalm(start, r, t, r.tasks[t].pc, waits)
    ensures TasksCalm(start, r, waits)
  {
    forall u | u in r.tasks
      ensures PcCalm(start, r, u, r.tasks[u].pc, waits)
    {
      if u != t {
        PcGrows(start, s, r, u, s.tasks[u].pc, waits);
      }
    }
  }

  // ----------------------------------------------------------------------- steps

  /** The directory as it was. */
  lemma SameGrows(start: State, s: State, r: State)
    requires SameDirectory(s, r) && FromStart(start, s) && Phase(start, s)
    ensures Grows(start, s, r) && FromStart(start, r) && Phase(start, r)
    ensures forall level :: Passes(r, level) <==> Passes(s, level)
  {
  }

  /** Where an unlocked or checking call goes next is in order. */
  lemma CheckingNext(start: State, s: State, t: TaskId, fails: bool, waits: bool)
    requires IsStart(start) && Calm(start, s, waits) && t in s.tasks && s.tasks[t].pc.Checking?
    ensures PcCalm(start, s, t, NextPc(s, t, fails), waits)
  {
    var pc := s.tasks[t].pc;
    assert PcCalm(start, s, t, pc, waits);
    CheckCarries(start, s, Fast, pc.v);
  }

  lemma ReadingNext(start: State, s: State, t: TaskId, fails: bool, waits: bool)
    requires IsStart(start) && Calm(start, s, waits) && t in s.tasks && s.tasks[t].pc.Reading?
    ensures PcCalm(start, s, t, NextPc(s, t, fails), waits)
  {
    var pc := s.tasks[t].pc;
    assert PcCalm(start, s, t, pc, waits);
    CheckCarries(start, s, pc.level, pc.v);
  }

  lemma GivingNext(start: State, s: State, t: TaskId, fails: bool, waits: bool)
    requires IsStart(start) && MetaInv(s) && Calm(start, s, waits) && t in s.tasks && s.tasks[t].pc.Giving?
    requires waits ==> !fails
    ensures PcCalm(start, s, t, NextPc(s, t, fails), waits)
  {
    var pc := s.tasks[t].pc;
    assert PcCalm(start, s, t, pc, waits);
    CheckCarries(start, s, Fast, pc.v);
    if Settled(start, s) {
      SettledPasses(start, s, Fast, pc.v);
    }
  }

  lemma RecheckingNext(start: State, s: State, t: TaskId, waits: bool)
    requires IsStart(start) && Inv(s) && Calm(start, s, waits) && t in s.tasks && s.tasks[t].pc.Rechecking?
    ensures PcCalm(start, s, t, NextPc(s, t, false), waits)
  {
    ConfirmedDecides(s, s.tasks[t].pc.v);
    if Settled(start, s) {
      SettledPasses(start, s, Fast, Start);
    } else if Passes(s, Fast) {
      UnsettledCoincides(start, s);
    }
  }

  /** Before anything is published, an unusable directory can only come to pass because a build has
      put in place a file that the old record could be taken to describe. */
  lemma UnsettledCoincides(start: State, s: State)
    requires IsStart(start) && FromStart(start, s) && Phase(start, s) && !Settled(start, s) && Passes(s, Fast)
    ensures Coincides(start, s)
  {
    if NewState(start, s) {
      assert Resembles(start, s, s.vmstate.value);
    } else if NewMem(start, s) {
      assert Resembles(start, s, s.memfile.value);
    } else {
      SameAsStart(start, s, Fast);
    }
  }

  lemma LockingNext(start: State, s: State, t: TaskId, fails: bool, waits: bool)
    requires IsStart(start) && Phase(start, s) && t in s.tasks && (s.tasks[t].pc.Locking? || s.tasks[t].pc.Waiting?)
    ensures PcCalm(start, s, t, NextPc(s, t, fails), waits)
  {
    assert IsComplete(s) ==> StartsUnfit(start) || Settled(start, s);
  }

  lemma OutsideNext(start: State, s: State, t: TaskId, fails: bool, waits: bool)
    requires IsStart(start) && Inv(s) && Calm(start, s, waits)
    requires t in s.tasks && !s.tasks[t].pc.Building? && CleanStep(s, Advance(t, fails), waits)
    ensures PcCalm(start, s, t, NextPc(s, t, fails), waits)
  {
    match s.tasks[t].pc {
      case Checking(_, _) => CheckingNext(start, s, t, fails, waits);
      case Locking(_) => LockingNext(start, s, t, fails, waits);
      case Waiting(_) => LockingNext(start, s, t, fails, waits);
      case Giving(_, _) => GivingNext(start, s, t, fails, waits);
      case Rechecking(_) => RecheckingNext(start, s, t, waits);
      case Reading(_, _) => ReadingNext(start, s, t, fails, waits);
      case Finished(_) => assert PcCalm(start, s, t, s.tasks[t].pc, waits);
    }
  }

  /** Task `t` moves on and the directory stays. */
  lemma MoveKeepsCalm(start: State, s: State, r: State, t: TaskId, waits: bool)
    requires Calm(start, s, waits) && SameDirectory(s, r) && t in r.tasks
    requires forall u :: u in r.tasks && u != t ==> u in s.tasks && r.tasks[u] == s.tasks[u]
    requires PcCalm(start, s, t, r.tasks[t].pc, waits)
    requires r.lock.Some? && r.lock != Some(t) ==> r.lock == s.lock && (r.lock.value in r.tasks ==> r.lock.value in s.tasks)
    requires r.lock == Some(t) && r.tasks[t].pc.Building? ==> LengthsRight(s, t, r.tasks[t].pc.stage)
    ensures Calm(start, r, waits)
  {
    SameGrows(start, s, r);
    PcGrows(start, s, r, t, r.tasks[t].pc, waits);
    OthersStayCalm(start, s, r, t, waits);
  }

  lemma OutsideStepKeepsCalm(start: State, s: State, t: TaskId, fails: bool, waits: bool)
    requires IsStart(start) && Inv(s) && Calm(start, s, waits)
    requires t in s.tasks && !s.tasks[t].pc.Building? && CleanStep(s, Advance(t, fails), waits)
    ensures Calm(start, AdvanceTask(s, t, fails), waits)
  {
    OutsideNext(start, s, t, fails, waits);
    NextPcAndLock(s, t, fails);
    MoveKeepsCalm(start, s, AdvanceTask(s, t, fails), t, waits);
  }

  /** Files of this run that are in place stay; the directory's own stay too. */
  ghost predicate FilesGrow(start: State, s: State, r: State) {
    && FromStart(start, r)
    && (forall i :: MadeHere(start, s, i) ==> MadeHere(start, r, i) && r.inodes[i] == s.inodes[i])
    && (NewState(start, s) ==> NewState(start, r)) && (NewMem(start, s) ==> NewMem(start, r))
  }

  /** The published files, as a check sees them. */
  predicate SamePublished(s: State, r: State) {
    && r.vmstate == s.vmstate && r.memfile == s.memfile && r.meta == s.meta
    && (s.vmstate.Some? ==> s.vmstate.value in s.inodes && s.vmstate.value in r.inodes && r.inodes[s.vmstate.value] == s.inodes[s.vmstate.value])
    && (s.memfile.Some? ==> s.memfile.value in s.inodes && s.memfile.value in r.inodes && r.inodes[s.memfile.value] == s.inodes[s.memfile.value])
  }

  lemma SameChecks(s: State, r: State)
    requires SamePublished(s, r)
    ensures Passes(r, Fast) <==> Passes(s, Fast)
  {
  }

  /** Files in place are kept, whatever happens to staging files. */
  predicate KeepsPublished(s: State, r: State) {
    && r.vmstate == s.vmstate && r.memfile == s.memfile && r.meta == s.meta && s.next <= r.next
    && forall i :: i in s.inodes && s.inodes[i].place.Published? ==> i in r.inodes && r.inodes[i] == s.inodes[i]
  }

  lemma KeepsPublishedGrows(start: State, s: State, r: State)
    requires IsStart(start) && FromStart(start, s) && NamesInv(s) && KeepsPublished(s, r)
    requires forall name :: name in r.staged ==> r.staged[name] >= start.next
    ensures FilesGrow(start, s, r) && SamePublished(s, r)
  {
    forall i | i in start.inodes
      ensures i in r.inodes && r.inodes[i] == start.inodes[i]
    {
      assert s.inodes[i] == start.inodes[i];
    }
  }

  lemma OpenKeepsPublished(s: State, t: TaskId, kind: Kind, stage: Stage)
    requires FilesInv(s) && NamesInv(s) && t in s.tasks
    ensures KeepsPublished(s, SetPc(OpenStaging(s, t, kind), t, Building(stage)))
  {
    var name := (s.tasks[t].pid, kind);
    if name in s.staged {
      assert StagedInv(s, name);
    }
    forall i | i in s.inodes
      ensures i < s.next
    {
      assert FileInv(s, i);
    }
  }

  lemma OpenFrame(start: State, s: State, t: TaskId, kind: Kind, stage: Stage)
    requires IsStart(start) && FromStart(start, s) && FilesInv(s) && NamesInv(s) && t in s.tasks
    ensures var r := SetPc(OpenStaging(s, t, kind), t, Building(stage));
            FilesGrow(start, s, r) && (Passes(r, Fast) <==> Passes(s, Fast))
  {
    var r := SetPc(OpenStaging(s, t, kind), t, Building(stage));
    OpenKeepsPublished(s, t, kind, stage);
    KeepsPublishedGrows(start, s, r);
    SameChecks(s, r);
  }

  lemma CloseKeepsPublished(s: State, t: TaskId, pc: Pc, dumps: map<TaskId, (Bytes, Bytes)>, lock: Option<TaskId>)
    requires FilesInv(s) && t in s.tasks
    ensures KeepsPublished(s, SetPc(s, t, pc).(inodes := Close(s.inodes, t), dumps := dumps, lock := lock))
  {
    forall i | i in s.inodes && s.inodes[i].place.Published?
      ensures Close(s.inodes, t)[i] == s.inodes[i]
    {
      assert FileInv(s, i);
    }
  }

  lemma CloseFrame(start: State, s: State, t: TaskId, pc: Pc, dumps: map<TaskId, (Bytes, Bytes)>, lock: Option<TaskId>)
    requires IsStart(start) && FromStart(start, s) && FilesInv(s) && NamesInv(s) && t in s.tasks
    ensures var r := SetPc(s, t, pc).(inodes := Close(s.inodes, t), dumps := dumps, lock := lock);
            FilesGrow(start, s, r) && (Passes(r, Fast) <==> Passes(s, Fast))
  {
    var r := SetPc(s, t, pc).(inodes := Close(s.inodes, t), dumps := dumps, lock := lock);
    CloseKeepsPublished(s, t, pc, dumps, lock);
    KeepsPublishedGrows(start, s, r);
    SameChecks(s, r);
  }

  lemma PublishFrame(start: State, s: State, t: TaskId, kind: Kind, stage: Stage)
    requires IsStart(start) && FromStart(start, s) && NamesInv(s) && t in s.tasks && HasStaged(s, s.tasks[t].pid, kind)
    ensures FilesGrow(start, s, SetPc(Publish(s, t, kind), t, Building(stage)))
  {
    assert StagedInv(s, (s.tasks[t].pid, kind));
  }

  /** The builder works on staging files, or puts them in place before there is a record of them. */
  lemma BuilderKeepsCalm(start: State, s: State, r: State, t: TaskId, waits: bool)
    requires LockInv(s) && Calm(start, s, waits) && t in s.tasks && t in r.tasks && r.tasks == s.tasks[t := r.tasks[t]]
    requires s.tasks[t].pc.Building? && !s.tasks[t].pc.stage.MetaPublished?
    requires r.meta == s.meta && r.published == s.published && (r.lock == s.lock == Some(t) || r.lock.None?)
    requires FilesGrow(start, s, r)
    requires if r.tasks[t].pc.Building? then
               && !r.tasks[t].pc.stage.MetaPublished? && LengthsRight(r, t, r.tasks[t].pc.stage)
               && (StillOld(r.tasks[t].pc.stage) ==> StillOld(s.tasks[t].pc.stage) && (Passes(r, Fast) <==> Passes(s, Fast)))
             else r.tasks[t].pc == Finished(Failed)
    ensures Calm(start, r, waits)
  {
    assert PcCalm(start, s, t, s.tasks[t].pc, waits);
    assert forall u :: u in s.tasks && u != t ==> !s.tasks[u].pc.Building?;
    OthersStayCalm(start, s, r, t, waits);
  }

  lemma RecordPhase(start: State, s: State, t: TaskId, m: Meta)
    requires IsStart(start) && FromStart(start, s) && Phase(start, s) && HolderInv(s) && HolderCalm(s)
    requires t in s.tasks && s.tasks[t].pc == Building(MetaStaged(m)) && s.lock == Some(t)
    requires s.published == [] && !Passes(start, Fast)
    ensures var r := BuildStep(s, t, MetaStaged(m), false);
            r.published == [t] && FromStart(start, r) && Phase(start, r) && Grows(start, s, r)
  {
    assert StageInv(s, t, s.tasks[t].pid, MetaStaged(m)) && LengthsRight(s, t, MetaStaged(m));
  }

  /** The record goes into place: the first and only one. */
  lemma RecordKeepsCalm(start: State, s: State, t: TaskId, m: Meta, waits: bool)
    requires IsStart(start) && Inv(s) && Calm(start, s, waits) && t in s.tasks && s.tasks[t].pc == Building(MetaStaged(m))
    ensures Calm(start, BuildStep(s, t, MetaStaged(m), false), waits)
  {
    hide Phase, FromStart, Grows;
    var r := BuildStep(s, t, MetaStaged(m), false);
    assert PcCalm(start, s, t, s.tasks[t].pc, waits);
    assert forall u :: u in s.tasks && u != t ==> !s.tasks[u].pc.Building?;
    RecordPhase(start, s, t, m);
    OthersStayCalm(start, s, r, t, waits);
  }

  lemma BuiltKeepsCalm(start: State, s: State, t: TaskId, fails: bool, waits: bool)
    requires IsStart(start) && Inv(s) && Calm(start, s, waits) && t in s.tasks && s.tasks[t].pc == Building(MetaPublished)
    ensures Calm(start, BuildStep(s, t, MetaPublished, fails), waits)
  {
    assert PcCalm(start, s, t, s.tasks[t].pc, waits);
    MoveKeepsCalm(start, s, BuildStep(s, t, MetaPublished, fails), t, waits);
  }

  /** What a step of a build before its record is in place does to the directory. */
  ghost predicate EarlyEffect(start: State, s: State, r: State, stage: Stage) {
    && FilesGrow(start, s, r) && r.meta == s.meta && r.published == s.published
    && (StillOld(stage) && !stage.Dumped? ==> (Passes(r, Fast) <==> Passes(s, Fast)))
  }

  lemma GiveUpFrame(start: State, s: State, t: TaskId, stage: Stage)
    requires IsStart(start) && Inv(s) && FromStart(start, s) && t in s.tasks && s.tasks[t].pc == Building(stage)
    ensures EarlyEffect(start, s, GiveUp(s, t), stage)
  {
    CloseFrame(start, s, t, Finished(Failed), s.dumps, None);
    assert GiveUp(s, t) == SetPc(s, t, Finished(Failed)).(inodes := Close(s.inodes, t), dumps := s.dumps, lock := None);
  }

  lemma OpenStepFrame(start: State, s: State, t: TaskId, stage: Stage)
    requires IsStart(start) && Inv(s) && FromStart(start, s) && t in s.tasks
    requires stage.OpenState? || stage.OpenMem?
    ensures EarlyEffect(start, s, BuildStep(s, t, stage, false), stage)
  {
    var kind, next := if stage.OpenState? then VmState else MemFile, if stage.OpenState? then OpenMem else Writing;
    OpenFrame(start, s, t, kind, next);
    assert BuildStep(s, t, stage, false) == SetPc(OpenStaging(s, t, kind), t, Building(next));
  }

  lemma CloseStepFrame(start: State, s: State, t: TaskId)
    requires IsStart(start) && Inv(s) && FromStart(start, s) && t in s.tasks
    ensures EarlyEffect(start, s, BuildStep(s, t, Writing, false), Writing)
  {
    var dumps := s.dumps[t := DumpOf(s, t)];
    CloseFrame(start, s, t, Building(Dumped), dumps, s.lock);
    assert BuildStep(s, t, Writing, false)
        == SetPc(s, t, Building(Dumped)).(inodes := Close(s.inodes, t), dumps := dumps, lock := s.lock);
  }

  lemma QuietFrame(start: State, s: State, t: TaskId, stage: Stage, fails: bool)
    requires IsStart(start) && Inv(s) && FromStart(start, s) && t in s.tasks && s.tasks[t].pc == Building(stage)
    requires stage.BothPublished? || (!fails && (stage.Sized? || stage.StateHashed? || stage.BothHashed? || stage.MetaReady?))
    ensures EarlyEffect(start, s, BuildStep(s, t, stage, fails), stage)
  {
    var r := BuildStep(s, t, stage, fails);
    assert KeepsPublished(s, r) && r.staged == s.staged;
    KeepsPublishedGrows(start, s, r);
  }

  lemma EarlyFrame(start: State, s: State, t: TaskId, stage: Stage, fails: bool)
    requires IsStart(start) && Inv(s) && FromStart(start, s) && t in s.tasks && s.tasks[t].pc == Building(stage)
    requires !stage.MetaPublished? && (fails || !stage.MetaStaged?)
    ensures EarlyEffect(start, s, BuildStep(s, t, stage, fails), stage)
  {
    if fails && !stage.BothPublished? {
      GiveUpFrame(start, s, t, stage);
    } else if stage.Dumped? {
      PublishFrame(start, s, t, VmState, StatePublished);
    } else if stage.StatePublished? {
      PublishFrame(start, s, t, MemFile, BothPublished);
    } else if stage.OpenState? || stage.OpenMem? {
      OpenStepFrame(start, s, t, stage);
    } else if stage.Writing? {
      CloseStepFrame(start, s, t);
    } else {
      QuietFrame(start, s, t, stage, fails);
    }
  }

  /** The same step, of the builder itself: on to the next stage, or out with an error. */
  predicate BuilderMoves(s: State, r: State, t: TaskId, stage: Stage) {
    && t in s.tasks && t in r.tasks && r.tasks == s.tasks[t := r.tasks[t]]
    && (r.lock == s.lock == Some(t) || r.lock.None?)
    && if r.tasks[t].pc.Building? then
         && !r.tasks[t].pc.stage.MetaPublished? && LengthsRight(r, t, r.tasks[t].pc.stage)
         && (StillOld(r.tasks[t].pc.stage) ==> StillOld(stage) && !stage.Dumped?)
       else r.tasks[t].pc == Finished(Failed)
  }

  lemma FailedStep(s: State, t: TaskId)
    requires LockInv(s) && t in s.tasks && s.tasks[t].pc.Building?
    ensures BuilderMoves(s, GiveUp(s, t), t, s.tasks[t].pc.stage)
  {
  }

  lemma EarlyStep(s: State, t: TaskId, stage: Stage)
    requires LockInv(s) && HolderInv(s) && HolderCalm(s) && t in s.tasks && s.tasks[t].pc == Building(stage)
    requires !stage.MetaPublished? && !stage.MetaStaged?
    ensures BuilderMoves(s, BuildStep(s, t, stage, false), t, stage)
  {
    assert s.lock == Some(t) && StageInv(s, t, s.tasks[t].pid, stage) && LengthsRight(s, t, stage);
    match stage {
      case OpenState =>
      case OpenMem =>
      case Writing =>
      case Dumped =>
      case StatePublished =>
      case _ => QuietStep(s, t, stage);
    }
  }

  lemma QuietStep(s: State, t: TaskId, stage: Stage)
    requires t in s.tasks && s.tasks[t].pc == Building(stage) && s.lock == Some(t)
    requires StageInv(s, t, s.tasks[t].pid, stage) && LengthsRight(s, t, stage)
    requires stage.BothPublished? || stage.Sized? || stage.StateHashed? || stage.BothHashed? || stage.MetaReady?
    ensures BuilderMoves(s, BuildStep(s, t, stage, false), t, stage)
  {
  }

  lemma BuildStepKeepsCalm(start: State, s: State, t: TaskId, fails: bool, waits: bool)
    requires IsStart(start) && Inv(s) && Calm(start, s, waits) && t in s.tasks && s.tasks[t].pc.Building?
    requires fails ==> s.tasks[t].pc != Building(BothPublished)
    ensures Calm(start, BuildStep(s, t, s.tasks[t].pc.stage, fails), waits)
  {
    var stage := s.tasks[t].pc.stage;
    if stage.MetaPublished? {
      BuiltKeepsCalm(start, s, t, fails, waits);
    } else if stage.MetaStaged? && !fails {
      RecordKeepsCalm(start, s, t, stage.m, waits);
    } else {
      EarlyFrame(start, s, t, stage, fails);
      if fails {
        FailedStep(s, t);
      } else {
        EarlyStep(s, t, stage);
      }
      BuilderKeepsCalm(start, s, BuildStep(s, t, stage, fails), t, waits);
    }
  }

  lemma WriteKeepsCalm(start: State, s: State, i: Ino, more: Bytes, mtime: nat, waits: bool)
    requires IsStart(start) && Inv(s) && Calm(start, s, waits) && i in s.inodes && s.inodes[i].writer.Some?
    ensures Calm(start, Step(s, WriteOut(i, more, mtime)), waits)
  {
    var r := Step(s, WriteOut(i, more, mtime));
    assert FileInv(s, i);
    WriteKeepsChecks(s, i, more, mtime);
    WriteFrame(start, s, i, more, mtime);
    TasksStayCalm(start, s, r, waits);
  }

  lemma WriteFrame(start: State, s: State, i: Ino, more: Bytes, mtime: nat)
    requires IsStart(start) && FromStart(start, s) && FilesInv(s) && NamesInv(s) && i in s.inodes && s.inodes[i].writer.Some?
    ensures FilesGrow(start, s, Step(s, WriteOut(i, more, mtime)))
    ensures Phase(start, s) ==> Phase(start, Step(s, WriteOut(i, more, mtime)))
  {
    assert FileInv(s, i);
  }

  /** No task moves, and no published file changes. */
  lemma TasksStayCalm(start: State, s: State, r: State, waits: bool)
    requires TasksCalm(start, s, waits) && FilesGrow(start, s, r) && r.tasks == s.tasks
    requires r.meta == s.meta && r.published == s.published && (Passes(r, Fast) <==> Passes(s, Fast))
    ensures TasksCalm(start, r, waits)
  {
    forall u | u in r.tasks
      ensures PcCalm(start, r, u, r.tasks[u].pc, waits)
    {
      PcGrows(start, s, r, u, s.tasks[u].pc, waits);
    }
  }

  lemma CrashKeepsCalm(start: State, s: State, pid: Pid, waits: bool)
    requires Inv(s) && Calm(start, s, waits)
    ensures Calm(start, Crashed(s, pid), waits)
  {
    var r := Crashed(s, pid);
    CrashFrame(start, s, pid);
    forall u | u in r.tasks
      ensures PcCalm(start, r, u, r.tasks[u].pc, waits)
    {
      if r.tasks[u] == s.tasks[u] {
        PcGrows(start, s, r, u, s.tasks[u].pc, waits);
      }
    }
  }

  lemma CrashFrame(start: State, s: State, pid: Pid)
    requires FromStart(start, s) && Phase(start, s)
    ensures var r := Crashed(s, pid);
            Grows(start, s, r) && FromStart(start, r) && Phase(start, r) && (Passes(r, Fast) <==> Passes(s, Fast))
  {
  }

  lemma BeginKeepsCalm(start: State, s: State, t: TaskId, pid: Pid, role: Role, waits: bool)
    requires Calm(start, s, waits) && t !in s.tasks && t !in s.dumps && pid !in s.dead
    ensures Calm(start, Step(s, Begin(t, pid, role)), waits)
  {
    MoveKeepsCalm(start, s, Step(s, Begin(t, pid, role)), t, waits);
  }

  lemma TickKeepsCalm(start: State, s: State, waits: bool)
    requires Calm(start, s, waits)
    ensures Calm(start, Step(s, Tick), waits)
  {
    var r := Step(s, Tick);
    SameGrows(start, s, r);
    TasksStayCalm(start, s, r, waits);
  }

  lemma StepKeepsCalm(start: State, s: State, e: Event, waits: bool)
    requires IsStart(start) && Inv(s) && Calm(start, s, waits) && CleanStep(s, e, waits)
    ensures Calm(start, Step(s, e), waits)
  {
    match e {
      case Begin(t, pid, role) =>
        if t !in s.tasks && t !in s.dumps && pid !in s.dead {
          BeginKeepsCalm(start, s, t, pid, role, waits);
        }
      case Advance(t, fails) =>
        if t in s.tasks {
          if s.tasks[t].pc.Building? {
            BuildStepKeepsCalm(start, s, t, fails, waits);
          } else {
            OutsideStepKeepsCalm(start, s, t, fails, waits);
          }
        }
      case WriteOut(i, more, mtime) =>
        if i in s.inodes && s.inodes[i].writer.Some? {
          WriteKeepsCalm(start, s, i, more, mtime, waits);
        }
      case Tick => TickKeepsCalm(start, s, waits);
      case Crash(pid) => CrashKeepsCalm(start, s, pid, waits);
    }
  }

  lemma {:induction false} CleanReachable(start: State, events: seq<Event>, waits: bool)
    requires IsStart(start) && CleanRun(start, events, waits)
    ensures Inv(Run(start, events)) && Calm(start, Run(start, events), waits)
  {
    Reachable(start, events);
    if events != [] {
      CleanReachable(start, events[..|events| - 1], waits);
      StepKeepsCalm(start, Run(start, events[..|events| - 1]), events[|events| - 1], waits);
    }
  }
}
