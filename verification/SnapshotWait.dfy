/** What can happen in some run, and exactly from which directories: a call that gives up waiting
    early, a second build, a publication at all. */
module SnapshotWait {
  import opened SnapshotProtocol
  import opened SnapshotCalm
  import opened SnapshotOnce
  import opened SnapshotRuns

  lemma {:induction false} FewerFail(start: State, events: seq<Event>, allowed: set<Deciding>, more: set<Deciding>)
    requires OnlyFail(start, events, allowed) && allowed <= more
    ensures OnlyFail(start, events, more)
  {
    if events != [] {
      FewerFail(start, events[..|events| - 1], allowed, more);
    }
  }

  /** In a directory that is usable to begin with no length is ever read, unless a check under the
      lock fails. */
  lemma {:induction false} UsableReadsNoLength(start: State, events: seq<Event>, waits: bool)
    requires IsStart(start) && Passes(start, Fast)
    requires OnlyFail(start, events, if waits then {Length} else {Length, AfterWait})
    ensures CleanRun(start, events, waits)
  {
    if events != [] {
      var before, e := events[..|events| - 1], events[|events| - 1];
      UsableReadsNoLength(start, before, waits);
      CleanReachable(start, before, waits);
      NobodyBuilds(start, Run(start, before), waits);
    }
  }

  lemma NobodyBuilds(start: State, s: State, waits: bool)
    requires Calm(start, s, waits) && Passes(start, Fast)
    ensures forall t :: t in s.tasks ==> !s.tasks[t].pc.Building?
  {
    forall t | t in s.tasks
      ensures !s.tasks[t].pc.Building?
    {
      assert PcCalm(start, s, t, s.tasks[t].pc, waits);
    }
  }

  /** A run in which the two reads that lead to builds do not fail, or only the one that plays no
      part. */
  lemma CleanAsFarAsItMatters(start: State, events: seq<Event>, allowed: set<Deciding>, waits: bool)
    requires IsStart(start) && OnlyFail(start, events, allowed)
    requires UnderLock !in allowed && (waits ==> AfterWait !in allowed) && (Length in allowed ==> Passes(start, Fast))
    ensures CleanRun(start, events, waits)
  {
    forall d: Deciding | d in allowed
      ensures d in (if waits then {Length} else {Length, AfterWait})
    {
      assert d != UnderLock && (waits ==> d != AfterWait);
      assert d.Length? || d.AfterWait?;
    }
    if Length in allowed {
      FewerFail(start, events, allowed, if waits then {Length} else {Length, AfterWait});
      UsableReadsNoLength(start, events, waits);
    } else {
      FewerFail(start, events, allowed, if waits then {} else {AfterWait});
    }
  }

  /** A directory usable to begin with, or made so by one build. */
  lemma ReachesUsable(start: State, allowed: set<Deciding>) returns (s: State)
    requires IsStart(start)
    ensures Reaches(start, allowed, s) && Quiet(s) && IsComplete(s) && Passes(s, Fast)
  {
    hide Reaches;
    ReachesStart(start, allowed);
    if Passes(start, Fast) {
      s := start;
    } else {
      var t := SomeNewTask(start);
      Builds(start, allowed, start, t, NO_BYTES, false);
      BuiltPasses(start, t, NO_BYTES);
      s := BuiltBy(start, t, NO_BYTES, false);
    }
  }

  // ------------------------------------------------------------------- early timeout

  /** Gave up waiting although the deadline had not come. */
  predicate GaveUpEarly(s: State, t: TaskId) {
    t in s.tasks && s.tasks[t].pc == Finished(TimedOut(false))
  }

  /** In some run in which of the deciding reads only those may fail. */
  ghost predicate MayGiveUpEarly(start: State, allowed: set<Deciding>) {
    exists s, t :: Reaches(start, allowed, s) && GaveUpEarly(s, t)
  }

  /** A new call in a complete directory, while another holds the lock: its wait ends at once. */
  lemma GivesUpBehind(start: State, allowed: set<Deciding>, s: State)
    requires Reaches(start, allowed, s) && IsComplete(s) && s.lock.Some? && (!Passes(s, Fast) || AfterWait in allowed)
    ensures MayGiveUpEarly(start, allowed)
  {
    hide Reaches;
    var t := SomeNewTask(s);
    var deadline := s.now + 1;
    ComesToTheLock(start, allowed, s, t);
    MovesTo(start, allowed, s, t, Locking(deadline), Waiting(deadline), false);
    MovesTo(start, allowed, s, t, Waiting(deadline), Giving(false, Start), false);
    if Passes(s, Fast) {
      CheckErrs(start, allowed, s, t, Waited);
    } else {
      CheckFails(start, allowed, s, t, Waited, Start);
    }
    assert GaveUpEarly(Moved(s, t, Finished(TimedOut(false))), t);
  }

  /** It does so behind a build whose files do not fit the record that is there. */
  lemma UnfitGivesUpEarly(start: State, allowed: set<Deciding>)
    requires IsStart(start) && StartsUnfit(start)
    ensures MayGiveUpEarly(start, allowed)
  {
    hide Reaches, MayGiveUpEarly;
    ReachesStart(start, allowed);
    var t := SomeNewTask(start);
    var d := NO_BYTES.(state := Unlike(start.meta.value));
    Places(start, allowed, start, t, d);
    PlacedUnlike(start, t, d);
    GivesUpBehind(start, allowed, Placed(start, t, d));
  }

  /** It does when its own check after the wait fails. */
  lemma ErrorAfterWaitGivesUpEarly(start: State, allowed: set<Deciding>)
    requires IsStart(start) && AfterWait in allowed
    ensures MayGiveUpEarly(start, allowed)
  {
    hide Reaches, MayGiveUpEarly;
    var s := ReachesUsable(start, allowed);
    var t := SomeNewTask(s);
    TakesTheLock(start, allowed, s, t);
    GivesUpBehind(start, allowed, Moved(LockedBy(s, t), t, Rechecking(Start)));
  }

  /** It does behind a build over a usable snapshot, after a failed check under the lock. */
  lemma ErrorUnderLockGivesUpEarly(start: State, allowed: set<Deciding>)
    requires IsStart(start) && UnderLock in allowed
    ensures MayGiveUpEarly(start, allowed)
  {
    hide Reaches, MayGiveUpEarly;
    var s := ReachesUsable(start, allowed);
    var t := SomeNewTask(s);
    var d := NO_BYTES.(state := Unlike(s.meta.value));
    Places(start, allowed, s, t, d);
    PlacedUnlike(s, t, d);
    GivesUpBehind(start, allowed, Placed(s, t, d));
  }

  /** It does behind a build that has published a record with the length lost. */
  lemma LostLengthGivesUpEarly(start: State, allowed: set<Deciding>)
    requires IsStart(start) && Length in allowed && !Passes(start, Fast)
    ensures MayGiveUpEarly(start, allowed)
  {
    hide Reaches, MayGiveUpEarly;
    ReachesStart(start, allowed);
    var t := SomeNewTask(start);
    var d := NO_BYTES.(state := [0]);
    Builds(start, allowed, start, t, d, true);
    assert !Passes(RecordedBy(start, t, d, true), Fast);
    GivesUpBehind(start, allowed, RecordedBy(start, t, d, true));
  }

  /** Which directories and errors make a waiting call report a time-out before its deadline: the
      directory begins with a meta.json and does not pass, or one of the deciding reads fails, the
      length in a directory that does not pass to begin with. */
  lemma EarlyTimeoutExactlyWhen(start: State, allowed: set<Deciding>)
    requires IsStart(start)
    ensures MayGiveUpEarly(start, allowed) <==>
              || StartsUnfit(start) || AfterWait in allowed || UnderLock in allowed
              || (Length in allowed && !Passes(start, Fast))
  {
    hide MayGiveUpEarly;
    if StartsUnfit(start) {
      UnfitGivesUpEarly(start, allowed);
    } else if AfterWait in allowed {
      ErrorAfterWaitGivesUpEarly(start, allowed);
    } else if UnderLock in allowed {
      ErrorUnderLockGivesUpEarly(start, allowed);
    } else if Length in allowed && !Passes(start, Fast) {
      LostLengthGivesUpEarly(start, allowed);
    } else {
      NeverEarly(start, allowed);
    }
  }

  lemma NeverEarly(start: State, allowed: set<Deciding>)
    requires IsStart(start) && !StartsUnfit(start) && AfterWait !in allowed && UnderLock !in allowed
    requires Length in allowed ==> Passes(start, Fast)
    ensures !MayGiveUpEarly(start, allowed)
  {
    forall s, t | Reaches(start, allowed, s) && t in s.tasks
      ensures s.tasks[t].pc != Finished(TimedOut(false))
    {
      var events :| OnlyFail(start, events, allowed) && Run(start, events) == s;
      CleanAsFarAsItMatters(start, events, allowed, true);
      CleanReachable(start, events, true);
      assert PcCalm(start, s, t, s.tasks[t].pc, true);
    }
  }

  // ------------------------------------------------------------------- second builds

  /** In some run two calls return that they built. */
  ghost predicate MayBuildTwice(start: State, allowed: set<Deciding>) {
    exists s, t, u :: Reaches(start, allowed, s) && t != u && SaysBuilt(s, t) && SaysBuilt(s, u)
  }

  lemma BuildsTwice(start: State, allowed: set<Deciding>, d: Dump, lost: bool)
    requires IsStart(start) && (!Passes(start, Fast) || UnderLock in allowed) && (lost ==> Length in allowed)
    requires UnderLock in allowed || (lost && d.state != [])
    ensures MayBuildTwice(start, allowed)
  {
    hide Reaches;
    ReachesStart(start, allowed);
    var t := SomeNewTask(start);
    Builds(start, allowed, start, t, d, lost);
    var s := BuiltBy(start, t, d, lost);
    assert lost && d.state != [] ==> !Passes(s, Fast);
    var u := SomeNewTask(s);
    Builds(start, allowed, s, u, NO_BYTES, false);
    var r := BuiltBy(s, u, NO_BYTES, false);
    assert t in s.tasks && t != u;
    assert SaysBuilt(r, t) && SaysBuilt(r, u);
  }

  /** At most one build completes, exactly unless a check under the lock fails, or the length does
      in a directory that does not pass to begin with. */
  lemma BuildsTwiceExactlyWhen(start: State, allowed: set<Deciding>)
    requires IsStart(start)
    ensures MayBuildTwice(start, allowed) <==> UnderLock in allowed || (Length in allowed && !Passes(start, Fast))
  {
    if UnderLock in allowed {
      BuildsTwice(start, allowed, NO_BYTES, false);
    } else if Length in allowed && !Passes(start, Fast) {
      BuildsTwice(start, allowed, NO_BYTES.(state := [0]), true);
    } else {
      forall s, t, u | Reaches(start, allowed, s) && SaysBuilt(s, t) && SaysBuilt(s, u)
        ensures t == u
      {
        var events :| OnlyFail(start, events, allowed) && Run(start, events) == s;
        CleanAsFarAsItMatters(start, events, allowed, false);
        AtMostOneBuild(start, events);
      }
    }
  }

  /** In some run a record is put in place. */
  ghost predicate MayPublish(start: State, allowed: set<Deciding>) {
    exists s :: Reaches(start, allowed, s) && s.published != []
  }

  /** A usable directory is published over exactly when a check under the lock may fail; any other
      can be published in. */
  lemma PublishesExactlyWhen(start: State, allowed: set<Deciding>)
    requires IsStart(start)
    ensures MayPublish(start, allowed) <==> !Passes(start, Fast) || UnderLock in allowed
  {
    if !Passes(start, Fast) || UnderLock in allowed {
      ReachesStart(start, allowed);
      var t := SomeNewTask(start);
      Builds(start, allowed, start, t, NO_BYTES, false);
      assert t in BuiltBy(start, t, NO_BYTES, false).published;
    } else {
      forall s | Reaches(start, allowed, s)
        ensures s.published == []
      {
        var events :| OnlyFail(start, events, allowed) && Run(start, events) == s;
        CleanAsFarAsItMatters(start, events, allowed, false);
        AtMostOnePublication(start, events);
      }
    }
  }
}
