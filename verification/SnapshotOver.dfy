/** Building over a snapshot that passes: what rules it out, in any run in which no check under the
    lock fails, and exactly when it can happen. */
module SnapshotOver {
  import opened Wrappers
  import opened SnapshotProtocol
  import opened SnapshotSafety
  import opened SnapshotCalm
  import opened SnapshotBuilt
  import opened SnapshotRuns
  import opened SnapshotWait

  /** A record that some vmstate fits: its length is that of the bytes it digested. */
  predicate Fittable(meta: Option<Meta>) {
    meta.Some? && meta.value.Recorded? && meta.value.vmstateBytes == |meta.value.vmstateB3.of|
  }

  predicate BuildsTowards(pc: Pc) {
    pc.Building? && !pc.stage.MetaPublished?
  }

  /** A record that can be fitted is fitted, and nobody is on the way to another. */
  ghost predicate FitsIfItCan(s: State) {
    Fittable(s.meta) ==> Passes(s, Fast) && forall t :: t in s.tasks ==> !BuildsTowards(s.tasks[t].pc)
  }

  lemma BuildKeepsMeta(s: State, t: TaskId, stage: Stage, fails: bool)
    requires t in s.tasks && (stage.MetaStaged? ==> fails)
    ensures BuildStep(s, t, stage, fails).meta == s.meta
  {
    match stage {
      case OpenState =>
      case OpenMem =>
      case Writing =>
      case Dumped =>
      case StatePublished =>
      case _ =>
    }
  }

  lemma RecordFits(s: State, t: TaskId, m: Meta)
    requires Inv(s) && t in s.tasks && s.tasks[t].pc == Building(MetaStaged(m))
    ensures FitsIfItCan(BuildStep(s, t, MetaStaged(m), false))
  {
    var r := BuildStep(s, t, MetaStaged(m), false);
    assert s.lock == Some(t) && StageInv(s, t, s.tasks[t].pid, MetaStaged(m));
    assert r.meta == Some(m);
    forall u | u in r.tasks
      ensures !BuildsTowards(r.tasks[u].pc)
    {
      assert u != t ==> r.tasks[u] == s.tasks[u];
    }
  }

  lemma BuildStepKeepsFit(s: State, t: TaskId, stage: Stage, fails: bool)
    requires Inv(s) && FitsIfItCan(s) && t in s.tasks && s.tasks[t].pc == Building(stage)
    ensures FitsIfItCan(BuildStep(s, t, stage, fails))
  {
    if stage.MetaStaged? && !fails {
      RecordFits(s, t, stage.m);
    } else if stage.MetaPublished? {
      ReturnKeepsChecks(s, t, Fast);
      BuildMovesItself(s, t, stage, fails);
    } else {
      BuildKeepsMeta(s, t, stage, fails);
    }
  }

  lemma OutsideStepKeepsFit(s: State, t: TaskId, fails: bool)
    requires Inv(s) && FitsIfItCan(s) && t in s.tasks && !s.tasks[t].pc.Building?
    requires FailedRead(s, Advance(t, fails)) != Some(UnderLock)
    ensures FitsIfItCan(AdvanceTask(s, t, fails))
  {
    var r := AdvanceTask(s, t, fails);
    assert SameDirectory(s, r);
    SameVerdict(s, r);
    if s.tasks[t].pc.Rechecking? {
      ConfirmedDecides(s, s.tasks[t].pc.v);
    }
    assert BuildsTowards(r.tasks[t].pc) ==> !Passes(s, Fast);
  }

  lemma SameVerdict(s: State, r: State)
    requires r.inodes == s.inodes && r.vmstate == s.vmstate && r.memfile == s.memfile && r.meta == s.meta
    ensures Passes(r, Fast) <==> Passes(s, Fast)
  {
  }

  lemma StepKeepsFit(s: State, e: Event)
    requires Inv(s) && FitsIfItCan(s) && FailedRead(s, e) != Some(UnderLock)
    ensures FitsIfItCan(Step(s, e))
  {
    match e {
      case Advance(t, fails) =>
        if t in s.tasks {
          if s.tasks[t].pc.Building? {
            BuildStepKeepsFit(s, t, s.tasks[t].pc.stage, fails);
          } else {
            OutsideStepKeepsFit(s, t, fails);
          }
        }
      case WriteOut(i, more, mtime) =>
        if i in s.inodes && s.inodes[i].writer.Some? {
          WriteKeepsChecks(s, i, more, mtime);
        }
      case _ => SameVerdict(s, Step(s, e));
    }
  }

  lemma {:induction false} FitReachable(start: State, events: seq<Event>, allowed: set<Deciding>)
    requires IsStart(start) && FitsIfItCan(start) && OnlyFail(start, events, allowed) && UnderLock !in allowed
    ensures FitsIfItCan(Run(start, events))
  {
    if events != [] {
      var before := events[..|events| - 1];
      FitReachable(start, before, allowed);
      Reachable(start, before);
      StepKeepsFit(Run(start, before), events[|events| - 1]);
    }
  }

  predicate BuildsOver(s: State, t: TaskId) {
    Passes(s, Fast) && t in s.tasks && BuildsTowards(s.tasks[t].pc)
  }

  /** In some run a call is still building while the snapshot passes. */
  ghost predicate MayBuildOver(start: State, allowed: set<Deciding>) {
    exists s, t :: Reaches(start, allowed, s) && BuildsOver(s, t)
  }

  /** The directory has a record that its files do not fit, though some would. */
  predicate HasUnfitRecord(start: State) {
    Fittable(start.meta) && !Passes(start, Fast)
  }

  /** Such a record lets a build put in place just the files it describes. */
  lemma UnfitIsBuiltOver(start: State, allowed: set<Deciding>)
    requires IsStart(start) && HasUnfitRecord(start)
    ensures MayBuildOver(start, allowed)
  {
    hide Reaches;
    var m := start.meta.value;
    var t := SomeNewTask(start);
    var d := Dump(m.vmstateB3.of, seq(m.memfileBytes, _ => 0), m.mtime);
    ReachesStart(start, allowed);
    Places(start, allowed, start, t, d);
    assert BuildsOver(Placed(start, t, d), t);
  }

  lemma UsableIsBuiltOver(start: State, allowed: set<Deciding>)
    requires IsStart(start) && UnderLock in allowed
    ensures MayBuildOver(start, allowed)
  {
    hide Reaches;
    var s := ReachesUsable(start, allowed);
    var t := SomeNewTask(s);
    StartsToBuild(start, allowed, s, t);
    var r := Moved(LockedBy(s, t), t, Building(OpenState));
    SameVerdict(s, r);
    assert BuildsOver(r, t);
  }

  /** A build can go on over a snapshot that passes exactly when a check under the lock may fail, or
      the directory has a record that its files do not fit and others would: the build's own files,
      in place before its record is, may be those. */
  lemma BuildsOverExactlyWhen(start: State, allowed: set<Deciding>)
    requires IsStart(start)
    ensures MayBuildOver(start, allowed) <==> HasUnfitRecord(start) || UnderLock in allowed
  {
    if HasUnfitRecord(start) {
      UnfitIsBuiltOver(start, allowed);
    } else if UnderLock in allowed {
      UsableIsBuiltOver(start, allowed);
    } else {
      forall s, t | Reaches(start, allowed, s)
        ensures !BuildsOver(s, t)
      {
        var events :| OnlyFail(start, events, allowed) && Run(start, events) == s;
        FitReachable(start, events, allowed);
      }
    }
  }
}
