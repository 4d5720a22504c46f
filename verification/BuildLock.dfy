/** Waiting for the per-snapshot build lock. */
module BuildLock {
  import opened Wrappers

  const POLL_MS: nat := 200

  /** One non-blocking attempt at the lock. */
  datatype Attempt = Granted | Held | OpenFailed

  datatype LockError = LockError

  /** The clock as the waiter reads it: it sleeps at least the polling interval between looks. */
  ghost predicate Polled(clock: nat -> nat, from: nat) {
    from <= clock(0) && forall i: nat :: Sleeps(clock, i)
  }

  predicate Sleeps(clock: nat -> nat, i: nat) {
    clock(i) + POLL_MS <= clock(i + 1)
  }

  lemma {:induction false} ClockAfter(clock: nat -> nat, from: nat, k: nat)
    requires Polled(clock, from)
    ensures from + POLL_MS * k <= clock(k)
  {
    if k > 0 {
      ClockAfter(clock, from, k - 1);
      assert Sleeps(clock, k - 1);
    }
  }

  /** `acquire_build_lock`: the `i`-th attempt answers `attempt(i)`, the three files are then there
      or not, and the clock then reads `clock(i)`. The wait is over within the deadline: every
      attempt but the last came before it, so there are at most wait / 200 + 2 of them. */
  method AcquireBuildLock(from: nat, wait: nat, attempt: nat -> Attempt, complete: nat -> bool, clock: nat -> nat)
    returns (r: Result<bool, LockError>, last: nat)
    requires Polled(clock, from)
    ensures forall i :: 0 <= i < last ==> attempt(i) == Held && !complete(i) && clock(i) < from + wait
    ensures r == Ok(true) <==> attempt(last) == Granted
    ensures r.Err? <==> attempt(last) == OpenFailed
    ensures r == Ok(false) ==> complete(last) || from + wait <= clock(last)
    ensures last * 200 < wait + 200 || last == 0
  {
    var deadline := from + wait;
    last := 0;
    while true
      invariant forall i :: 0 <= i < last ==> attempt(i) == Held && !complete(i) && clock(i) < deadline
      invariant last * POLL_MS < wait + POLL_MS || last == 0
      decreases deadline + POLL_MS - last * POLL_MS
    {
      match attempt(last) {
        case Granted => return Ok(true), last;
        case OpenFailed => return Err(LockError), last;
        case Held =>
      }
      if complete(last) {
        return Ok(false), last;
      }
      if clock(last) >= deadline {
        return Ok(false), last;
      }
      ClockAfter(clock, from, last);
      last := last + 1;
    }
  }
}
