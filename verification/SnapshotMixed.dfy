/** Checks that see files of more than one build: a check takes its steps while builds come and go
    under a record that is not theirs, and can so pass of a directory that never did. What that
    can mislead, and exactly from which directories. */
module SnapshotMixed {
  import opened Wrappers
  import opened Bytes
  import opened SnapshotProtocol
  import opened SnapshotSafety
  import opened SnapshotCalm
  import opened SnapshotOnce
  import opened SnapshotRuns
  import opened SnapshotWait
  import opened SnapshotOver

  /** The check of a call that has just begun. */
  function Looking(role: Role, v: Verify): Pc {
    match role
    case Ensure(wait) => Checking(wait, v)
    case Verifier(level) => Reading(level, v)
  }

  function LevelOf(role: Role): Integrity {
    if role.Ensure? then Fast else role.level
  }

  function OutcomeOf(role: Role, m: Meta): Outcome {
    if role.Ensure? then Reused else Verified(role.level, m)
  }

  predicate IsAt(s: State, t: TaskId, pc: Pc) {
    t in s.tasks && s.tasks[t] == Task(t, pc)
  }

  /** One step of such a check. */
  lemma LooksOn(start: State, allowed: set<Deciding>, s: State, t: TaskId, role: Role, v: Verify)
    requires Reaches(start, allowed, s) && Quiet(s) && IsAt(s, t, Looking(role, v)) && !VerifyStep(s, LevelOf(role), v).Fail?
    ensures var p := VerifyStep(s, LevelOf(role), v);
            var pc := if p.Go? then Looking(role, p.v) else Finished(OutcomeOf(role, p.m));
            Reaches(start, allowed, Moved(s, t, pc)) && Quiet(Moved(s, t, pc))
  {
    hide Reaches;
    var p := VerifyStep(s, LevelOf(role), v);
    assert s == Moved(s, t, Looking(role, v)) by {
      assert s.tasks == s.tasks[t := Task(t, Looking(role, v))];
    }
    MovesTo(start, allowed, s, t, Looking(role, v), if p.Go? then Looking(role, p.v) else Finished(OutcomeOf(role, p.m)), false);
  }

  predicate HasRecord(s: State, m: Meta) {
    s.meta == Some(m) && m.Recorded?
  }

  /** What the next step of a check by the record looks at is as the record has it. */
  predicate Shows(d: Dump, v: Verify) {
    match v
    case Size(m) => m.Recorded? && |d.state| == m.vmstateBytes
    case Hash(m) => m.Recorded? && Blake3(d.state) == m.vmstateB3
    case Mem(m) => m.Recorded? && |d.mem| == m.memfileBytes && d.mtime == m.mtime
    case HashMem(m) => m.Recorded? && Blake3(d.mem) == m.memfileB3
    case _ => false
  }

  /** Something else is not. */
  predicate Misfits(d: Dump, m: Meta) {
    m.Recorded? && (|d.mem| != m.memfileBytes || Blake3(d.state) != m.vmstateB3)
  }

  /** A step of a check, after a build has put its files in place and died. */
  lemma LooksOnAfter(start: State, allowed: set<Deciding>, s: State, t: TaskId, role: Role, m: Meta, v: Verify, d: Dump)
    returns (r: State)
    requires Reaches(start, allowed, s) && Quiet(s) && IsAt(s, t, Looking(role, v)) && HasRecord(s, m) && !Passes(s, Fast)
    requires (v == Size(m) || v == Hash(m) || v == Mem(m) || v == HashMem(m)) && Shows(d, v) && Misfits(d, m)
    ensures Reaches(start, allowed, r) && Quiet(r) && HasRecord(r, m) && r.published == s.published && !Passes(r, Fast)
    ensures IsAt(r, t, match v
                       case Size(_) => Looking(role, Hash(m))
                       case Hash(_) => Looking(role, Mem(m))
                       case Mem(_) => if LevelOf(role).Full? then Looking(role, HashMem(m)) else Finished(OutcomeOf(role, m))
                       case _ => Finished(OutcomeOf(role, m)))
  {
    hide Reaches;
    var b := SomeNewTask(s);
    Replaces(start, allowed, s, b, d);
    var q := Replaced(s, b, d);
    assert IsAt(q, t, Looking(role, v)) && !Passes(q, Fast);
    var p := VerifyStep(q, LevelOf(role), v);
    LooksOn(start, allowed, q, t, role, v);
    r := Moved(q, t, if p.Go? then Looking(role, p.v) else Finished(OutcomeOf(role, p.m)));
  }

  function Zeros(n: nat): Bytes {
    seq(n, _ => 0)
  }

  /** A new call comes to look at the record, once the three files are there. */
  lemma LooksAtRecord(start: State, allowed: set<Deciding>, s: State, role: Role, m: Meta) returns (r: State, t: TaskId)
    requires Reaches(start, allowed, s) && Quiet(s) && HasRecord(s, m) && IsComplete(s)
    ensures Reaches(start, allowed, r) && Quiet(r) && IsAt(r, t, Looking(role, Size(m)))
    ensures SameVerdicts(s, r) && r.published == s.published
  {
    hide Reaches;
    t := SomeNewTask(s);
    Then(start, allowed, s, Begin(t, t, role));
    assert Step(s, Begin(t, t, role)) == Moved(s, t, Looking(role, Start));
    LooksOn(start, allowed, Moved(s, t, Looking(role, Start)), t, role, Start);
    MovedTwice(s, t, Looking(role, Start), Looking(role, Read));
    LooksOn(start, allowed, Moved(s, t, Looking(role, Read)), t, role, Read);
    MovedTwice(s, t, Looking(role, Read), Looking(role, Size(m)));
    r := Moved(s, t, Looking(role, Size(m)));
  }

  predicate SameVerdicts(s: State, r: State) {
    r.inodes == s.inodes && r.vmstate == s.vmstate && r.memfile == s.memfile && r.meta == s.meta
  }

  /** A check comes as far as the memory file: the length it finds is of one build's vmstate, the
      digest of another's. */
  lemma MisledHalfway(start: State, allowed: set<Deciding>, s: State, role: Role, m: Meta, wrong: Bytes) returns (r: State, t: TaskId)
    requires Reaches(start, allowed, s) && Quiet(s) && HasRecord(s, m) && !Passes(s, Fast) && |wrong| != m.memfileBytes
    ensures Reaches(start, allowed, r) && Quiet(r) && HasRecord(r, m) && r.published == s.published && !Passes(r, Fast)
    ensures IsAt(r, t, Looking(role, Mem(m)))
  {
    hide Reaches;
    var b := SomeNewTask(s);
    var d := Dump([], wrong, 0);
    Replaces(start, allowed, s, b, d);
    r := Replaced(s, b, d);
    assert !Passes(r, Fast);
    r, t := LooksAtRecord(start, allowed, r, role, m);
    r := LooksOnAfter(start, allowed, r, t, role, m, Size(m), Dump(Zeros(m.vmstateBytes), wrong, 0));
    r := LooksOnAfter(start, allowed, r, t, role, m, Hash(m), Dump(m.vmstateB3.of, wrong, 0));
  }

  /** Wherever there is a record that does not fit, a check can be led to pass, each step by another
      build's files, of a directory that passes at no moment. */
  lemma Misled(start: State, allowed: set<Deciding>, s: State, role: Role, m: Meta) returns (r: State, t: TaskId)
    requires Reaches(start, allowed, s) && Quiet(s) && HasRecord(s, m) && !Passes(s, Fast)
    ensures Reaches(start, allowed, r) && HasRecord(r, m) && r.published == s.published && !Passes(r, Fast)
    ensures IsAt(r, t, Finished(OutcomeOf(role, m)))
  {
    hide Reaches;
    r, t := MisledHalfway(start, allowed, s, role, m, Zeros(m.memfileBytes + 1));
    r := LooksOnAfter(start, allowed, r, t, role, m, Mem(m), Dump(m.vmstateB3.of + [0], Zeros(m.memfileBytes), m.mtime));
    if LevelOf(role).Full? {
      r := LooksOnAfter(start, allowed, r, t, role, m, HashMem(m), Dump(m.vmstateB3.of + [0], m.memfileB3.of, m.mtime));
    }
  }

  /** The directory begins with a digest record and does not pass. */
  predicate StartsStale(start: State) {
    start.meta.Some? && start.meta.value.Recorded? && !Passes(start, Fast)
  }

  // ---------------------------------------------------------------------- reuse

  /** In some run a call has returned that it reuses a snapshot, and the directory does not pass. */
  ghost predicate MayReuseUnusable(start: State, allowed: set<Deciding>) {
    exists s, t :: Reaches(start, allowed, s) && SaysReused(s, t) && !Passes(s, Fast)
  }

  lemma StaleIsReused(start: State, allowed: set<Deciding>, s: State)
    requires Reaches(start, allowed, s) && Quiet(s) && s.meta.Some? && s.meta.value.Recorded? && !Passes(s, Fast)
    ensures MayReuseUnusable(start, allowed)
  {
    hide Reaches;
    var r, t := Misled(start, allowed, s, Ensure(1), s.meta.value);
    assert SaysReused(r, t);
  }

  lemma LostLengthIsReused(start: State, allowed: set<Deciding>)
    requires IsStart(start) && Length in allowed && !Passes(start, Fast)
    ensures MayReuseUnusable(start, allowed)
  {
    hide Reaches, MayReuseUnusable;
    ReachesStart(start, allowed);
    var t := SomeNewTask(start);
    var d := NO_BYTES.(state := [0]);
    Builds(start, allowed, start, t, d, true);
    assert !Passes(BuiltBy(start, t, d, true), Fast);
    StaleIsReused(start, allowed, BuiltBy(start, t, d, true));
  }

  /** A call reuses what is usable, and another builds over it. */
  lemma UsableIsReusedThenLost(start: State, allowed: set<Deciding>)
    requires IsStart(start) && UnderLock in allowed
    ensures MayReuseUnusable(start, allowed)
  {
    hide Reaches;
    var s := ReachesUsable(start, allowed);
    var m := s.meta.value;
    var r, t := LooksAtRecord(start, allowed, s, Ensure(1), m);
    LooksOn(start, allowed, r, t, Ensure(1), Size(m));
    var q := Moved(r, t, Looking(Ensure(1), Hash(m)));
    LooksOn(start, allowed, q, t, Ensure(1), Hash(m));
    MovedTwice(r, t, Looking(Ensure(1), Hash(m)), Looking(Ensure(1), Mem(m)));
    q := Moved(r, t, Looking(Ensure(1), Mem(m)));
    LooksOn(start, allowed, q, t, Ensure(1), Mem(m));
    MovedTwice(r, t, Looking(Ensure(1), Mem(m)), Finished(Reused));
    q := Moved(r, t, Finished(Reused));
    var b := SomeNewTask(q);
    var d := NO_BYTES.(state := Unlike(m));
    Places(start, allowed, q, b, d);
    PlacedUnlike(q, b, d);
    assert SaysReused(Placed(q, b, d), t);
  }

  /** A call that reuses leaves with a usable snapshot, and it stays one, exactly unless the
      directory begins with a digest record that does not fit, a check under the lock fails, or the
      length does in a directory that does not pass to begin with. */
  lemma ReusesUnusableExactlyWhen(start: State, allowed: set<Deciding>)
    requires IsStart(start)
    ensures MayReuseUnusable(start, allowed) <==>
              StartsStale(start) || UnderLock in allowed || (Length in allowed && !Passes(start, Fast))
  {
    if StartsStale(start) {
      ReachesStart(start, allowed);
      StaleIsReused(start, allowed, start);
    } else if UnderLock in allowed {
      UsableIsReusedThenLost(start, allowed);
    } else if Length in allowed && !Passes(start, Fast) {
      LostLengthIsReused(start, allowed);
    } else {
      forall s, t | Reaches(start, allowed, s) && SaysReused(s, t)
        ensures Passes(s, Fast)
      {
        var events :| OnlyFail(start, events, allowed) && Run(start, events) == s;
        CleanAsFarAsItMatters(start, events, allowed, false);
        ReusedPasses(start, events, t);
      }
    }
  }

  lemma ReusedPasses(start: State, events: seq<Event>, t: TaskId)
    requires IsStart(start) && CleanRun(start, events, false) && !StartsStale(start) && SaysReused(Run(start, events), t)
    ensures Passes(Run(start, events), Fast)
  {
    OutcomesAreUsable(start, events);
    CleanReachable(start, events, false);
    NothingCoincides(start, Run(start, events));
  }

  /** Only the record of a directory that does not pass can be taken to describe another build. */
  lemma NothingCoincides(start: State, s: State)
    requires IsStart(start) && Inv(s) && Phase(start, s) && !StartsStale(start)
    ensures !Coincides(start, s)
  {
    forall i | MadeHere(start, s, i)
      ensures !Resembles(start, s, i)
    {
      assert FileInv(s, i);
    }
  }

  // --------------------------------------------------------------------- readers

  /** A reader has verified a record that is neither that of the run's publication nor one that
      passed at that strength to begin with. */
  predicate Misverified(start: State, s: State, t: TaskId, level: Integrity, m: Meta) {
    && HasVerified(s, t, level, m)
    && !(m.Recorded? && s.published == [m.author] && s.meta == Some(m) && BothHold(s, m.author))
    && !(start.meta == Some(m) && Passes(start, level))
  }

  ghost predicate MayMisverify(start: State, level: Integrity) {
    exists s, t, m :: Reaches(start, {AfterWait}, s) && Misverified(start, s, t, level, m)
  }

  /** With the deciding reads intact that can happen exactly from a directory that begins with a
      digest record and passes neither the hot-path check nor the one made. */
  lemma MisverifiesExactlyWhen(start: State, level: Integrity)
    requires IsStart(start)
    ensures MayMisverify(start, level) <==> StartsStale(start) && !Passes(start, level)
  {
    if StartsStale(start) && !Passes(start, level) {
      ReachesStart(start, {AfterWait});
      var s, t := Misled(start, {AfterWait}, start, Verifier(level), start.meta.value);
      assert Misverified(start, s, t, level, start.meta.value);
    }
    forall s, t, m | Reaches(start, {AfterWait}, s) && Misverified(start, s, t, level, m)
      ensures StartsStale(start) && !Passes(start, level)
    {
      var events :| OnlyFail(start, events, {AfterWait}) && Run(start, events) == s;
      VerifiedIsCurrent(start, events);
      CleanReachable(start, events, false);
      if !StartsStale(start) {
        NothingCoincides(start, s);
      }
    }
  }

  // ---------------------------------------------------------------- fast and full

  /** In some run with the deciding reads intact the hot-path check passes and the full one would
      not. */
  ghost predicate MayPassFastOnly(start: State) {
    exists s :: Reaches(start, {AfterWait}, s) && Passes(s, Fast) && !Passes(s, Full)
  }

  /** Some memory file has the length the record gives, and other bytes than it digested. */
  predicate HasOtherMem(m: Meta) {
    m.Recorded? && (m.memfileBytes > 0 || m.memfileB3.of != [])
  }

  function OtherMem(m: Meta): (mem: Bytes)
    requires HasOtherMem(m)
    ensures |mem| == m.memfileBytes && mem != m.memfileB3.of
  {
    var zeros := Zeros(m.memfileBytes);
    if zeros != m.memfileB3.of then zeros
    else
      assert zeros[0 := 1][0] != zeros[0];
      zeros[0 := 1]
  }

  lemma PassesFastOnly(start: State)
    requires IsStart(start) && HasUnfitRecord(start) && HasOtherMem(start.meta.value)
    ensures MayPassFastOnly(start)
  {
    hide Reaches;
    var m := start.meta.value;
    var t := SomeNewTask(start);
    var d := Dump(m.vmstateB3.of, OtherMem(m), m.mtime);
    ReachesStart(start, {AfterWait});
    Places(start, {AfterWait}, start, t, d);
    assert Passes(Placed(start, t, d), Fast) && !Passes(Placed(start, t, d), Full);
  }

  lemma FastOnlyNeeds(start: State, events: seq<Event>)
    requires IsStart(start) && CleanRun(start, events, false)
    requires Passes(Run(start, events), Fast) && !Passes(Run(start, events), Full) && !Passes(start, Fast)
    ensures HasUnfitRecord(start) && HasOtherMem(start.meta.value)
  {
    CleanReachable(start, events, false);
    if Run(start, events).published != [] {
      SettledPasses(start, Run(start, events), Full, Start);
    }
  }

  lemma FastStartStays(start: State, events: seq<Event>)
    requires IsStart(start) && CleanRun(start, events, false) && Passes(start, Fast) && !Passes(Run(start, events), Full)
    ensures !Passes(start, Full)
  {
    CleanReachable(start, events, false);
    SettledPasses(start, Run(start, events), Full, Start);
  }

  /** The hot-path check is as good as the full one exactly unless the directory begins with a memory
      file of the right length and time and other bytes, or with a record that its files do not fit
      and such a memory file would. */
  lemma PassesFastOnlyExactlyWhen(start: State)
    requires IsStart(start)
    ensures MayPassFastOnly(start) <==>
              (Passes(start, Fast) && !Passes(start, Full)) || (HasUnfitRecord(start) && HasOtherMem(start.meta.value))
  {
    if Passes(start, Fast) && !Passes(start, Full) {
      ReachesStart(start, {AfterWait});
    } else if HasUnfitRecord(start) && HasOtherMem(start.meta.value) {
      PassesFastOnly(start);
    }
    forall s | Reaches(start, {AfterWait}, s) && Passes(s, Fast) && !Passes(s, Full)
      ensures (Passes(start, Fast) && !Passes(start, Full)) || (HasUnfitRecord(start) && HasOtherMem(start.meta.value))
    {
      var events :| OnlyFail(start, events, {AfterWait}) && Run(start, events) == s;
      if Passes(start, Fast) {
        FastStartStays(start, events);
      } else {
        FastOnlyNeeds(start, events);
      }
    }
  }
}
