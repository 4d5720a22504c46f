/** Runs with no outside writer or remover, from any directory: at most one build completes, nobody
    starts one over a usable snapshot, and what a call leaves with is what it checked. */
module SnapshotOnce {
  import opened Wrappers
  import opened SnapshotProtocol
  import opened SnapshotSafety
  import opened SnapshotCalm

  predicate SaysBuilt(s: State, t: TaskId) {
    t in s.tasks && s.tasks[t].pc == Finished(Built)
  }

  predicate SaysReused(s: State, t: TaskId) {
    t in s.tasks && s.tasks[t].pc == Finished(Reused)
  }

  predicate HasVerified(s: State, t: TaskId, level: Integrity, m: Meta) {
    t in s.tasks && s.tasks[t].pc == Finished(Verified(level, m))
  }

  predicate IsBuilding(s: State, t: TaskId, stage: Stage) {
    t in s.tasks && s.tasks[t].pc == Building(stage)
  }

  // ------------------------------------------------------------------ one build

  /** However many calls race, at most one build completes; a call that says it built did. */
  lemma {:induction false} AtMostOneBuild(start: State, events: seq<Event>)
    requires IsStart(start) && CleanRun(start, events, false)
    ensures forall t: TaskId :: SaysBuilt(Run(start, events), t) ==> Run(start, events).published == [t]
    ensures forall t: TaskId, u: TaskId :: SaysBuilt(Run(start, events), t) && SaysBuilt(Run(start, events), u) ==> t == u
  {
    CleanReachable(start, events, false);
    var s := Run(start, events);
    forall t: TaskId | SaysBuilt(s, t)
      ensures s.published == [t]
    {
      assert PcCalm(start, s, t, s.tasks[t].pc, false);
    }
    forall t: TaskId, u: TaskId | SaysBuilt(s, t) && SaysBuilt(s, u)
      ensures t == u
    {
      assert s.published[0] == t;
    }
  }

  /** At most one record is ever put in place, and none over a directory that was usable to begin
      with. */
  lemma {:induction false} AtMostOnePublication(start: State, events: seq<Event>)
    requires IsStart(start) && CleanRun(start, events, false)
    ensures |Run(start, events).published| <= 1
    ensures Passes(start, Fast) ==> Run(start, events).published == []
  {
    CleanReachable(start, events, false);
  }

  /** While the snapshot is usable nobody builds, but for the call that has just published it, and
      one that put in place a file the old record could be taken to describe and goes on. */
  lemma {:induction false} NobodyBuildsOverUsable(start: State, events: seq<Event>)
    requires IsStart(start) && CleanRun(start, events, false) && Passes(Run(start, events), Fast)
    ensures forall t: TaskId, stage: Stage :: IsBuilding(Run(start, events), t, stage) ==>
              || (stage.MetaPublished? && Run(start, events).published == [t])
              || (!StillOld(stage) && Coincides(start, Run(start, events)))
  {
    CleanReachable(start, events, false);
    var s := Run(start, events);
    forall t: TaskId, stage: Stage | IsBuilding(s, t, stage)
      ensures (stage.MetaPublished? && s.published == [t]) || (!StillOld(stage) && Coincides(start, s))
    {
      assert PcCalm(start, s, t, s.tasks[t].pc, false);
      if !stage.MetaPublished? {
        UnsettledCoincides(start, s);
      }
    }
  }

  /** In any run, whatever failed before: the check under the lock sends a call on to build over a
      usable snapshot exactly when that check fails for an outside reason. */
  lemma {:induction false} RebuildsOverUsableIff(start: State, events: seq<Event>, t: TaskId, fails: bool)
    requires IsStart(start) && Passes(Run(start, events), Fast)
    requires t in Run(start, events).tasks && Run(start, events).tasks[t].pc.Rechecking?
    ensures IsBuilding(Step(Run(start, events), Advance(t, fails)), t, OpenState) <==> fails
  {
    Reachable(start, events);
    ConfirmedDecides(Run(start, events), Run(start, events).tasks[t].pc.v);
  }

  // ------------------------------------------------------------------- outcomes

  /** A call that builds leaves a snapshot that passes at both strengths; one that reuses leaves
      with a usable one, unless a build has put in place a file the old record could be taken to
      describe. Both hold from the return on. */
  lemma {:induction false} OutcomesAreUsable(start: State, events: seq<Event>)
    requires IsStart(start) && CleanRun(start, events, false)
    ensures forall t: TaskId :: SaysBuilt(Run(start, events), t) ==> Passes(Run(start, events), Fast) && Passes(Run(start, events), Full)
    ensures forall t: TaskId :: SaysReused(Run(start, events), t) ==>
              Passes(Run(start, events), Fast) || Coincides(start, Run(start, events))
  {
    CleanReachable(start, events, false);
    var s := Run(start, events);
    forall t: TaskId | SaysBuilt(s, t)
      ensures Passes(s, Fast) && Passes(s, Full)
    {
      assert PcCalm(start, s, t, s.tasks[t].pc, false);
      RecordedPasses(s, Fast);
      RecordedPasses(s, Full);
    }
    forall t: TaskId | SaysReused(s, t)
      ensures Passes(s, Fast) || Coincides(start, s)
    {
      assert PcCalm(start, s, t, s.tasks[t].pc, false);
      if Settled(start, s) {
        SettledPasses(start, s, Fast, Start);
      }
    }
  }

  /** A reader's verified record is that of the one build of the run, whose files are in place; or
      it is the directory's own, which passed at that strength to begin with, unless a build has
      put in place a file it could be taken to describe. */
  lemma {:induction false} VerifiedIsCurrent(start: State, events: seq<Event>)
    requires IsStart(start) && CleanRun(start, events, false)
    ensures forall t: TaskId, level: Integrity, m: Meta :: HasVerified(Run(start, events), t, level, m) && m.Recorded? ==>
              || (Run(start, events).published == [m.author] && Run(start, events).meta == Some(m) && BothHold(Run(start, events), m.author))
              || (start.meta == Some(m) && (Passes(start, level) || Coincides(start, Run(start, events))))
    ensures forall t: TaskId, level: Integrity, m: Meta :: HasVerified(Run(start, events), t, level, m) ==> m.Recorded?
  {
    CleanReachable(start, events, false);
    var s := Run(start, events);
    forall t: TaskId, level: Integrity, m: Meta | HasVerified(s, t, level, m)
      ensures m.Recorded?
      ensures (s.published == [m.author] && s.meta == Some(m) && BothHold(s, m.author))
              || (start.meta == Some(m) && (Passes(start, level) || Coincides(start, s)))
    {
      assert PcCalm(start, s, t, s.tasks[t].pc, false);
    }
  }

  /** When the snapshot passes: after a publication always, at both strengths; in a directory usable
      to begin with, exactly as it did then; otherwise not on the hot path, unless a build has put
      in place a file the old record could be taken to describe. */
  lemma {:induction false} PassesExactlyWhen(start: State, events: seq<Event>, level: Integrity)
    requires IsStart(start) && CleanRun(start, events, false)
    ensures Settled(start, Run(start, events)) ==>
              (Passes(Run(start, events), level) <==> Run(start, events).published != [] || Passes(start, level))
    ensures !Settled(start, Run(start, events)) && Passes(Run(start, events), Fast) ==> Coincides(start, Run(start, events))
  {
    CleanReachable(start, events, false);
    var s := Run(start, events);
    if Settled(start, s) {
      SettledPasses(start, s, level, Start);
    } else if Passes(s, Fast) {
      UnsettledCoincides(start, s);
    }
  }

  /** The hot-path check is as good as the full one but in a directory that began with a memory file
      of the right length and time and other bytes, or with such a file put in place since. */
  lemma {:induction false} FastImpliesFull(start: State, events: seq<Event>)
    requires IsStart(start) && CleanRun(start, events, false) && Passes(Run(start, events), Fast)
    ensures || Passes(Run(start, events), Full)
            || (Run(start, events).published == [] && Passes(start, Fast) && !Passes(start, Full))
            || (Run(start, events).published == [] && Coincides(start, Run(start, events)))
  {
    PassesExactlyWhen(start, events, Fast);
    PassesExactlyWhen(start, events, Full);
  }

  lemma StepKeepsSettled(start: State, s: State, e: Event)
    requires IsStart(start) && Inv(s) && Calm(start, s, false) && CleanStep(s, e, false) && Settled(start, s)
    ensures Step(s, e).meta == s.meta && Step(s, e).published == s.published
  {
    if e.Advance? && e.t in s.tasks {
      assert PcCalm(start, s, e.t, s.tasks[e.t].pc, false);
    }
  }

  /** Once settled, for good: the record stays, and it passes as it passed. */
  lemma {:induction false} UsableForGood(start: State, events: seq<Event>, k: nat, level: Integrity)
    requires IsStart(start) && CleanRun(start, events, false) && k <= |events|
    requires CleanRun(start, events[..k], false) && Settled(start, Run(start, events[..k]))
    ensures Run(start, events).meta == Run(start, events[..k]).meta && Run(start, events).published == Run(start, events[..k]).published
    ensures Passes(Run(start, events), level) <==> Passes(Run(start, events[..k]), level)
  {
    if k < |events| {
      var before := events[..|events| - 1];
      assert before[..k] == events[..k];
      UsableForGood(start, before, k, level);
      CleanReachable(start, before, false);
      StepKeepsSettled(start, Run(start, before), events[|events| - 1]);
      PassesExactlyWhen(start, before, level);
      PassesExactlyWhen(start, events, level);
    } else {
      assert events[..k] == events;
    }
  }
}
