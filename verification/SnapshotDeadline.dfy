/** What a call's wait means, over any run: the deadline it keeps to is its wait after the moment its
    first check failed, and how it stops waiting follows from that. */
module SnapshotDeadline {
  import opened Wrappers
  import opened SnapshotProtocol
  import opened SnapshotBuilt

  /** What the call was begun as. */
  function RoleOf(start: State, events: seq<Event>, t: TaskId): Option<Role> {
    if events == [] then None
    else
      var before, e := events[..|events| - 1], events[|events| - 1];
      if e.Begin? && e.t == t && t !in Run(start, before).tasks && t in Run(start, events).tasks then Some(e.role)
      else RoleOf(start, before, t)
  }

  /** The clock when its first check had failed and it turned to the lock. */
  function TurnedToTheLock(start: State, events: seq<Event>, t: TaskId): Option<nat> {
    if events == [] then None
    else
      var before := events[..|events| - 1];
      var s, r := Run(start, before), Run(start, events);
      if t in s.tasks && s.tasks[t].pc.Checking? && t in r.tasks && r.tasks[t].pc.Locking? then Some(s.now)
      else TurnedToTheLock(start, before, t)
  }

  /** At some point of the run it saw the three files, waiting, before the clock read `deadline`. */
  predicate SawThemBefore(start: State, events: seq<Event>, t: TaskId, deadline: nat) {
    events != []
    && (var before := events[..|events| - 1];
        var s := Run(start, before);
        SawThemBefore(start, before, t, deadline)
        || (t in s.tasks && s.tasks[t].pc.Waiting? && IsComplete(s) && s.now < deadline))
  }

  predicate Waits(role: Option<Role>) {
    role.Some? && role.value.Ensure?
  }

  /** The step in which its first check fails. */
  function Turns(s: State, r: State, t: TaskId, turned: Option<nat>): Option<nat> {
    if t in s.tasks && s.tasks[t].pc.Checking? && t in r.tasks && r.tasks[t].pc.Locking? then Some(s.now) else turned
  }

  /** A step in which it sees the three files before its deadline. */
  predicate Sees(s: State, t: TaskId, role: Option<Role>, turned: Option<nat>) {
    t in s.tasks && s.tasks[t].pc.Waiting? && IsComplete(s) && turned.Some? && Waits(role) && s.now < turned.value + role.value.wait
  }

  /** Where a call of that role can be, when it turned to the lock at `turned`. */
  predicate InTime(s: State, pc: Pc, role: Option<Role>, turned: Option<nat>, saw: bool) {
    match pc
    case Checking(wait, _) => role == Some(Ensure(wait)) && turned == None
    case Locking(deadline) => Waits(role) && turned.Some? && deadline == turned.value + role.value.wait
    case Waiting(deadline) => Waits(role) && turned.Some? && deadline == turned.value + role.value.wait
    case Giving(reached, _) =>
      Waits(role) && turned.Some? && (if reached then turned.value + role.value.wait <= s.now else saw)
    case Reading(level, _) => role == Some(Verifier(level))
    case Finished(TimedOut(reached)) =>
      Waits(role) && turned.Some? && (if reached then turned.value + role.value.wait <= s.now else saw)
    case _ => true
  }

  predicate DeadlineIn(start: State, events: seq<Event>, t: TaskId) {
    var s, role, turned := Run(start, events), RoleOf(start, events, t), TurnedToTheLock(start, events, t);
    if t !in s.tasks then role == None && turned == None
    else
      role.Some?
      && InTime(s, s.tasks[t].pc, role, turned,
                turned.Some? && Waits(role) && SawThemBefore(start, events, t, turned.value + role.value.wait))
  }

  lemma OwnStepInTime(s: State, t: TaskId, fails: bool, role: Option<Role>, turned: Option<nat>, saw: bool)
    requires t in s.tasks && !s.tasks[t].pc.Building? && role.Some? && InTime(s, s.tasks[t].pc, role, turned, saw)
    ensures var r := AdvanceTask(s, t, fails);
            t in r.tasks && InTime(r, r.tasks[t].pc, role, Turns(s, r, t, turned), saw || Sees(s, t, role, turned))
  {
    var pc := NextPc(s, t, fails);
    assert AdvanceTask(s, t, fails).tasks[t].pc == pc;
  }

  predicate StaysOut(s: State, r: State, t: TaskId) {
    t in r.tasks && r.now == s.now && (r.tasks[t].pc.Building? || (r.tasks[t].pc.Finished? && !r.tasks[t].pc.outcome.TimedOut?))
  }

  lemma LateStepStaysOut(s: State, t: TaskId, stage: Stage, fails: bool)
    requires t in s.tasks && (stage.BothPublished? || AfterLength(stage))
    ensures StaysOut(s, BuildStep(s, t, stage, fails), t)
  {
  }

  lemma BuildStepInTime(s: State, t: TaskId, stage: Stage, fails: bool)
    requires t in s.tasks
    ensures StaysOut(s, BuildStep(s, t, stage, fails), t)
  {
    GiveUpMovesItself(s, t);
    match stage {
      case OpenState =>
      case OpenMem =>
      case Writing =>
      case Dumped =>
      case StatePublished =>
      case _ => LateStepStaysOut(s, t, stage, fails);
    }
  }

  predicate Kept(s: State, r: State, t: TaskId)
    requires t in s.tasks
  {
    t in r.tasks && s.now <= r.now && (r.tasks[t].pc == s.tasks[t].pc || r.tasks[t].pc == Finished(Killed))
  }

  lemma OtherStepKeeps(s: State, u: TaskId, fails: bool, t: TaskId)
    requires t in s.tasks && u in s.tasks && u != t
    ensures Kept(s, AdvanceTask(s, u, fails), t)
  {
    if s.tasks[u].pc.Building? {
      BuildMovesItself(s, u, s.tasks[u].pc.stage, fails);
      BuildStepInTime(s, u, s.tasks[u].pc.stage, fails);
      hide BuildStep;
    }
  }

  lemma OtherEventInTime(s: State, e: Event, t: TaskId)
    requires t in s.tasks && !(e.Advance? && e.t == t)
    ensures Kept(s, Step(s, e), t)
  {
    match e {
      case Advance(u, fails) =>
        if u in s.tasks {
          OtherStepKeeps(s, u, fails, t);
          hide AdvanceTask;
        }
      case _ =>
    }
  }

  lemma StaysInTime(s: State, r: State, pc: Pc, role: Option<Role>, turned: Option<nat>, saw: bool, more: bool)
    requires InTime(s, pc, role, turned, saw) && s.now <= r.now
    ensures InTime(r, pc, role, turned, saw || more)
  {
  }

  lemma StepInTime(s: State, e: Event, t: TaskId, role: Option<Role>, turned: Option<nat>, saw: bool)
    requires t in s.tasks && role.Some? && InTime(s, s.tasks[t].pc, role, turned, saw)
    ensures var r := Step(s, e);
            t in r.tasks && InTime(r, r.tasks[t].pc, role, Turns(s, r, t, turned), saw || Sees(s, t, role, turned))
  {
    if e.Advance? && e.t == t {
      if s.tasks[t].pc.Building? {
        BuildStepInTime(s, t, s.tasks[t].pc.stage, e.fails);
        hide BuildStep;
      } else {
        OwnStepInTime(s, t, e.fails, role, turned, saw);
        hide AdvanceTask, InTime, Sees, Turns;
      }
    } else {
      OtherEventInTime(s, e, t);
      StaysInTime(s, Step(s, e), s.tasks[t].pc, role, turned, saw, Sees(s, t, role, turned));
      hide Step, Sees;
    }
  }

  lemma ComesByBegin(s: State, e: Event, t: TaskId)
    requires t !in s.tasks && t in Step(s, e).tasks
    ensures e.Begin? && e.t == t
    ensures Step(s, e).tasks[t].pc == if e.role.Ensure? then Checking(e.role.wait, Start) else Reading(e.role.level, Start)
  {
    match e {
      case Advance(u, fails) =>
        if u in s.tasks && s.tasks[u].pc.Building? {
          BuildMovesItself(s, u, s.tasks[u].pc.stage, fails);
        }
      case _ =>
    }
  }

  lemma {:induction false} DeadlineReachable(start: State, events: seq<Event>, t: TaskId)
    requires IsStart(start)
    ensures DeadlineIn(start, events, t)
  {
    if events != [] {
      var before, e := events[..|events| - 1], events[|events| - 1];
      DeadlineReachable(start, before, t);
      var s, role, turned := Run(start, before), RoleOf(start, before, t), TurnedToTheLock(start, before, t);
      hide Step, InTime;
      if t in s.tasks {
        OneMoreEvent(start, events, t);
      } else if t in Step(s, e).tasks {
        ComesByBegin(s, e, t);
        BeginsInTime(Step(s, e), e.role);
      }
    }
  }

  lemma BeginsInTime(s: State, role: Role)
    ensures InTime(s, if role.Ensure? then Checking(role.wait, Start) else Reading(role.level, Start), Some(role), None, false)
  {
  }

  lemma OneMoreEvent(start: State, events: seq<Event>, t: TaskId)
    requires events != [] && DeadlineIn(start, events[..|events| - 1], t) && t in Run(start, events[..|events| - 1]).tasks
    ensures DeadlineIn(start, events, t)
  {
    hide Step, InTime;
    var before, e := events[..|events| - 1], events[|events| - 1];
    var s, role, turned := Run(start, before), RoleOf(start, before, t), TurnedToTheLock(start, before, t);
    var saw := turned.Some? && Waits(role) && SawThemBefore(start, before, t, turned.value + role.value.wait);
    StepInTime(s, e, t, role, turned, saw);
    var turn := Turns(s, Step(s, e), t, turned);
    assert RoleOf(start, events, t) == role && TurnedToTheLock(start, events, t) == turn;
    TurnsOnce(s, Step(s, e), t, role, turned, saw);
    var sawNow := turn.Some? && Waits(role) && SawThemBefore(start, events, t, turn.value + role.value.wait);
    StaysInTime(Step(s, e), Step(s, e), Step(s, e).tasks[t].pc, role, turn, saw || Sees(s, t, role, turned), sawNow);
    assert saw || Sees(s, t, role, turned) ==> sawNow;
  }

  /** A call turns to the lock once. */
  lemma TurnsOnce(s: State, r: State, t: TaskId, role: Option<Role>, turned: Option<nat>, saw: bool)
    requires t in s.tasks && InTime(s, s.tasks[t].pc, role, turned, saw)
    ensures turned.Some? ==> Turns(s, r, t, turned) == turned
  {
  }

  // ------------------------------------------------------- from one point to another

  predicate IsAtPc(s: State, t: TaskId, pc: Pc) {
    t in s.tasks && s.tasks[t].pc == pc
  }

  /** The first check of a call with that wait fails in the next step of the run. */
  predicate TurnsAt(start: State, events: seq<Event>, k: nat, t: TaskId, wait: nat) {
    && k < |events|
    && (var s, r := Run(start, events[..k]), Run(start, events[..k + 1]);
        && t in s.tasks && s.tasks[t].pc.Checking? && s.tasks[t].pc.wait == wait
        && t in r.tasks && r.tasks[t].pc.Locking?)
  }

  /** It was begun with that wait, and from then on that is the one time it turned to the lock. */
  lemma {:induction false} TurnedThen(start: State, events: seq<Event>, k: nat, t: TaskId, wait: nat)
    requires IsStart(start) && TurnsAt(start, events, k, t, wait)
    ensures RoleOf(start, events, t) == Some(Ensure(wait)) && TurnedToTheLock(start, events, t) == Some(Run(start, events[..k]).now)
  {
    hide InTime, Step;
    var before := events[..|events| - 1];
    if k == |events| - 1 {
      assert events[..k] == before && events[..k + 1] == events;
      DeadlineReachable(start, before, t);
      CheckingRole(start, before, t);
      StillThere(start, before, events[k], t);
    } else {
      assert before[..k] == events[..k] && before[..k + 1] == events[..k + 1];
      TurnedThen(start, before, k, t, wait);
      DeadlineReachable(start, before, t);
      StillThere(start, before, events[|events| - 1], t);
    }
  }

  lemma CheckingRole(start: State, events: seq<Event>, t: TaskId)
    requires DeadlineIn(start, events, t) && t in Run(start, events).tasks && Run(start, events).tasks[t].pc.Checking?
    ensures RoleOf(start, events, t) == Some(Ensure(Run(start, events).tasks[t].pc.wait))
  {
  }

  /** A later event leaves what the call was begun as, and when it turned. */
  lemma StillThere(start: State, events: seq<Event>, e: Event, t: TaskId)
    requires DeadlineIn(start, events, t) && RoleOf(start, events, t).Some?
    ensures RoleOf(start, events + [e], t) == RoleOf(start, events, t)
    ensures TurnedToTheLock(start, events, t).Some? ==> TurnedToTheLock(start, events + [e], t) == TurnedToTheLock(start, events, t)
  {
    assert (events + [e])[..|events|] == events;
  }

  /** The call is waiting at that point of the run, and the three files are there. */
  predicate WaitsBeside(start: State, events: seq<Event>, j: nat, t: TaskId) {
    && j < |events|
    && (var s := Run(start, events[..j]); t in s.tasks && s.tasks[t].pc.Waiting? && IsComplete(s))
  }

  lemma {:induction false} SawThemAt(start: State, events: seq<Event>, t: TaskId, deadline: nat) returns (j: nat)
    requires SawThemBefore(start, events, t, deadline)
    ensures WaitsBeside(start, events, j, t) && Run(start, events[..j]).now < deadline
  {
    var before := events[..|events| - 1];
    if SawThemBefore(start, before, t, deadline) {
      j := SawThemAt(start, before, t, deadline);
      assert before[..j] == events[..j];
    } else {
      j := |events| - 1;
    }
  }

  predicate GivesUp(pc: Pc, reached: bool) {
    (pc.Giving? && pc.reached == reached) || pc == Finished(TimedOut(reached))
  }

  /** A call that was given `wait`, and whose first check failed when the clock read `n`, keeps the
      deadline `n + wait` while it tries for the lock; it gives up for having reached the deadline
      only when the clock reads that much, and otherwise only after it saw the three files before. */
  lemma {:induction false} KeepsItsDeadline(start: State, events: seq<Event>, k: nat, t: TaskId, wait: nat)
    requires IsStart(start) && TurnsAt(start, events, k, t, wait)
    ensures var n, s := Run(start, events[..k]).now, Run(start, events);
            && t in s.tasks
            && (forall d :: s.tasks[t].pc == Locking(d) || s.tasks[t].pc == Waiting(d) ==> d == n + wait)
            && (GivesUp(s.tasks[t].pc, true) ==> n + wait <= s.now)
            && (GivesUp(s.tasks[t].pc, false) ==>
                  exists j: nat :: WaitsBeside(start, events, j, t) && Run(start, events[..j]).now < n + wait)
  {
    hide Step;
    TurnedThen(start, events, k, t, wait);
    DeadlineReachable(start, events, t);
    var n := Run(start, events[..k]).now;
    if GivesUp(Run(start, events).tasks[t].pc, false) {
      var j := SawThemAt(start, events, t, n + wait);
    }
  }

  /** While it has not the lock, its looks decide: at the lock it waits exactly while another holds
      it, and a look after that ends the wait exactly when the three files are there or the clock
      has come to `n + wait`; otherwise it tries for the lock again. */
  lemma {:induction false} WaitsUntilItsDeadline(start: State, events: seq<Event>, k: nat, t: TaskId, wait: nat, fails: bool)
    requires IsStart(start) && TurnsAt(start, events, k, t, wait)
    ensures var deadline, s := Run(start, events[..k]).now + wait, Run(start, events);
            var r := Step(s, Advance(t, fails));
            && t in s.tasks && t in r.tasks
            && (s.tasks[t].pc.Waiting? ==>
                  r.tasks[t].pc == if IsComplete(s) || deadline <= s.now then Giving(deadline <= s.now, Start) else Locking(deadline))
            && (s.tasks[t].pc.Locking? && !fails ==>
                  if s.lock.None? then r.tasks[t].pc == Rechecking(Start) && r.lock == Some(t)
                  else r.tasks[t].pc == Waiting(deadline) && r.lock == s.lock)
            && (s.tasks[t].pc.Locking? && fails ==> r.tasks[t].pc == Finished(Failed))
  {
    KeepsItsDeadline(start, events, k, t, wait);
    var s := Run(start, events);
    if s.tasks[t].pc.Building? {
      BuildStepInTime(s, t, s.tasks[t].pc.stage, fails);
    }
  }

  function Ticks(s: State, n: nat): State {
    if n == 0 then s else Step(Ticks(s, n - 1), Tick)
  }

  lemma {:induction false} TicksOnly(s: State, n: nat)
    ensures Ticks(s, n) == s.(now := s.now + n)
  {
    if n > 0 {
      TicksOnly(s, n - 1);
    }
  }

  /** While the files are not all there, a call that waits goes on until the clock has ticked up to
      its deadline, and then its next look ends the wait. */
  lemma TimeEndsTheWait(s: State, t: TaskId, deadline: nat, n: nat)
    requires t in s.tasks && s.tasks[t].pc == Waiting(deadline) && !IsComplete(s)
    ensures var r := Step(Ticks(s, n), Advance(t, false));
            t in r.tasks && r.tasks[t].pc == if s.now + n < deadline then Locking(deadline) else Giving(true, Start)
  {
    TicksOnly(s, n);
  }
}
