/** The PID-1 reaper's registry: statuses and the handlers waiting for them may arrive in
    either order, and a bounded stash bridges the gap. */
module Reaper {
  import opened Wrappers

  const MAX_PENDING := 512

  datatype WaitResult = WaitResult(pid: int, exitCode: Option<int>, signal: Option<int>)

  /** The state under the mutex. A receiver is a number; `inbox[rx]` is what was sent to it. */
  datatype Registry = Registry(
    waiters: map<int, nat>,
    pending: map<int, WaitResult>,
    order: seq<int>,
    inbox: seq<seq<WaitResult>>)

  const EMPTY := Registry(map[], map[], [], [])

  function Send(inbox: seq<seq<WaitResult>>, rx: nat, res: WaitResult): seq<seq<WaitResult>> {
    if rx < |inbox| then inbox[rx := inbox[rx] + [res]] else inbox
  }

  /** `Reaper::register`: the new receiver is `|r.inbox|`. */
  function Registered(r: Registry, pid: int): Registry {
    if pid in r.pending then
      r.(pending := r.pending - {pid}, inbox := r.inbox + [[r.pending[pid]]])
    else
      r.(waiters := r.waiters[pid := |r.inbox|], inbox := r.inbox + [[]])
  }

  /** `route`, for one reaped status. */
  function Routed(r: Registry, res: WaitResult): Registry {
    if res.pid in r.waiters then
      r.(waiters := r.waiters - {res.pid}, inbox := Send(r.inbox, r.waiters[res.pid], res))
    else
      var evicting := |r.pending| >= MAX_PENDING && r.order != [];
      var pending := if evicting then r.pending - {r.order[0]} else r.pending;
      var order := if evicting then r.order[1..] else r.order;
      r.(pending := pending[res.pid := res], order := order + [res.pid])
  }

  class Reaper {
    var waiters: map<int, nat>
    var pending: map<int, WaitResult>
    var order: seq<int>
    var inbox: seq<seq<WaitResult>>

    ghost function State(): Registry
      reads this
    {
      Registry(waiters, pending, order, inbox)
    }

    constructor ()
      ensures State() == EMPTY
    {
      waiters, pending, order, inbox := map[], map[], [], [];
    }

    method Register(pid: int) returns (rx: nat)
      modifies this
      ensures State() == Registered(old(State()), pid)
      ensures rx == |old(inbox)|
    {
      rx := |inbox|;
      inbox := inbox + [[]];
      if pid in pending {
        var res := pending[pid];
        pending := pending - {pid};
        inbox := inbox[rx := [res]];
      } else {
        waiters := waiters[pid := rx];
      }
    }

    method Route(res: WaitResult)
      modifies this
      ensures State() == Routed(old(State()), res)
    {
      if res.pid in waiters {
        inbox := Send(inbox, waiters[res.pid], res);
        waiters := waiters - {res.pid};
        return;
      }
      if |pending| >= MAX_PENDING {
        if order != [] {
          var oldest := order[0];
          order := order[1..];
          pending := pending - {oldest};
        }
      }
      pending := pending[res.pid := res];
      order := order + [res.pid];
    }
  }

  // ------------------------------------------------------------- whole runs

  datatype Event = Reap(res: WaitResult) | Register(pid: int)

  /** A registry together with what its run has seen: the pid each receiver asked for, every
      status reaped, every status evicted from the stash, and how many registers the stash
      served. */
  datatype History = History(
    reg: Registry,
    asked: seq<int>,
    reaped: seq<WaitResult>,
    evicted: seq<WaitResult>,
    served: nat)

  const START := History(EMPTY, [], [], [], 0)

  function Evictions(r: Registry, res: WaitResult): seq<WaitResult> {
    if res.pid !in r.waiters && |r.pending| >= MAX_PENDING && r.order != [] && r.order[0] in r.pending
    then [r.pending[r.order[0]]]
    else []
  }

  function Step(h: History, e: Event): History {
    match e
    case Reap(res) =>
      h.(reg := Routed(h.reg, res), reaped := h.reaped + [res],
      evicted := h.evicted + Evictions(h.reg, res))
    case Register(pid) =>
      h.(reg := Registered(h.reg, pid), asked := h.asked + [pid],
      served := h.served + if pid in h.reg.pending then 1 else 0)
  }

  function Run(h: History, events: seq<Event>): History {
    if events == [] then h else Step(Run(h, events[..|events| - 1]), events[|events| - 1])
  }

  /** No pid is reaped twice: the kernel does not hand a pid out again during the run. */
  predicate DistinctPids(reaped: seq<WaitResult>) {
    forall i, j :: 0 <= i < j < |reaped| ==> reaped[i].pid != reaped[j].pid
  }

  ghost predicate Delivered(r: Registry, res: WaitResult) {
    exists rx :: 0 <= rx < |r.inbox| && r.inbox[rx] == [res]
  }

  predicate Stashed(r: Registry, res: WaitResult) {
    res.pid in r.pending && r.pending[res.pid] == res
  }

  /** Receiver `rx` holds nothing, or the one status of the pid it asked for. */
  predicate OwnStatusOnly(r: Registry, asked: seq<int>, rx: nat) {
    rx < |asked| && rx < |r.inbox| && |r.inbox[rx]| <= 1 && (r.inbox[rx] != [] ==> r.inbox[rx][0].pid == asked[rx])
  }

  predicate WaitsEmpty(r: Registry, asked: seq<int>, pid: int) {
    pid in r.waiters ==>
      r.waiters[pid] < |asked| && r.waiters[pid] < |r.inbox|
      && asked[r.waiters[pid]] == pid && r.inbox[r.waiters[pid]] == []
  }

  ghost predicate ReceiversSound(r: Registry, asked: seq<int>) {
    && |asked| == |r.inbox|
    && (forall rx :: 0 <= rx < |asked| ==> OwnStatusOnly(r, asked, rx))
    && (forall pid :: WaitsEmpty(r, asked, pid))
    && (forall pid :: pid in r.pending ==> r.pending[pid].pid == pid)
  }

  lemma ReceiversSoundRoute(r: Registry, asked: seq<int>, res: WaitResult)
    requires ReceiversSound(r, asked)
    ensures ReceiversSound(Routed(r, res), asked)
  {
    var r' := Routed(r, res);
    assert WaitsEmpty(r, asked, res.pid);
    forall rx | 0 <= rx < |asked|
      ensures OwnStatusOnly(r', asked, rx)
    {
      assert OwnStatusOnly(r, asked, rx);
    }
    forall pid
      ensures WaitsEmpty(r', asked, pid)
    {
      assert WaitsEmpty(r, asked, pid);
    }
  }

  lemma ReceiversSoundRegister(r: Registry, asked: seq<int>, pid: int)
    requires ReceiversSound(r, asked)
    ensures ReceiversSound(Registered(r, pid), asked + [pid])
  {
    var r' := Registered(r, pid);
    forall rx | 0 <= rx < |asked| + 1
      ensures OwnStatusOnly(r', asked + [pid], rx)
    {
      if rx < |asked| {
        assert OwnStatusOnly(r, asked, rx);
      }
    }
    forall p
      ensures WaitsEmpty(r', asked + [pid], p)
    {
      assert WaitsEmpty(r, asked, p);
    }
  }

  /** For any events at all, each receiver is sent at most one status, and only of its pid. */
  lemma {:induction false} EachReceiverGetsItsOwnStatusAtMostOnce(events: seq<Event>)
    ensures ReceiversSound(Run(START, events).reg, Run(START, events).asked)
  {
    if events != [] {
      EachReceiverGetsItsOwnStatusAtMostOnce(events[..|events| - 1]);
      var before := Run(START, events[..|events| - 1]);
      match events[|events| - 1]
      case Reap(res) => ReceiversSoundRoute(before.reg, before.asked, res);
      case Register(pid) => ReceiversSoundRegister(before.reg, before.asked, pid);
    }
  }

  // ------------------------------------------------ order, stash and their bounds

  predicate NoDuplicates(order: seq<int>) {
    forall i, j :: 0 <= i < j < |order| ==> order[i] != order[j]
  }

  ghost predicate WasReaped(reaped: seq<WaitResult>, pid: int) {
    exists k :: 0 <= k < |reaped| && reaped[k].pid == pid
  }

  lemma WasReapedGrows(reaped: seq<WaitResult>, res: WaitResult, pid: int)
    ensures WasReaped(reaped + [res], pid) <==> WasReaped(reaped, pid) || pid == res.pid
  {
    if WasReaped(reaped, pid) {
      var k :| 0 <= k < |reaped| && reaped[k].pid == pid;
      assert (reaped + [res])[k].pid == pid;
    }
    assert (reaped + [res])[|reaped|] == res;
  }

  lemma FreshPid(reaped: seq<WaitResult>, res: WaitResult)
    requires DistinctPids(reaped + [res])
    ensures DistinctPids(reaped) && !WasReaped(reaped, res.pid)
  {
    var all := reaped + [res];
    assert forall k :: 0 <= k < |reaped| ==> reaped[k] == all[k];
    assert all[|reaped|] == res;
  }

  /** `order` lists distinct reaped pids, among them every stashed one, and has outgrown
      neither the stash nor the cap by more than the number of served registers. */
  ghost predicate OrderSound(r: Registry, reaped: seq<WaitResult>, served: nat) {
    && NoDuplicates(r.order)
    && (forall pid :: pid in r.order ==> WasReaped(reaped, pid))
    && (forall pid :: pid in r.pending ==> pid in r.order)
    && |r.pending| <= |r.order| <= |r.pending| + served
    && |r.order| <= MAX_PENDING + served
  }

  lemma MapRemoveCard<T>(m: map<int, T>, k: int)
    ensures |m - {k}| == if k in m then |m| - 1 else |m|
  {
    assert (m - {k}).Keys == m.Keys - {k};
    assert |(m - {k}).Keys| == |m - {k}| && |m.Keys| == |m|;
  }

  lemma MapAddCard<T>(m: map<int, T>, k: int, v: T)
    ensures |m[k := v]| == if k in m then |m| else |m| + 1
  {
    assert m[k := v].Keys == m.Keys + {k};
    assert |m[k := v].Keys| == |m[k := v]| && |m.Keys| == |m|;
  }

  /** Stashing drops at most the front of `order` and appends a new pid. */
  lemma OrderPush(order: seq<int>, reaped: seq<WaitResult>, res: WaitResult, drop: nat)
    requires NoDuplicates(order) && drop <= |order| && DistinctPids(reaped + [res])
    requires forall pid :: pid in order ==> WasReaped(reaped, pid)
    ensures NoDuplicates(order[drop..] + [res.pid])
    ensures forall pid :: pid in order[drop..] + [res.pid] ==> WasReaped(reaped + [res], pid)
  {
    FreshPid(reaped, res);
    assert res.pid !in order;
    forall pid | pid in order[drop..] + [res.pid]
      ensures WasReaped(reaped + [res], pid)
    {
      WasReapedGrows(reaped, res, pid);
    }
  }

  lemma StashListed(r: Registry, res: WaitResult)
    requires res.pid !in r.waiters && forall pid :: pid in r.pending ==> pid in r.order
    ensures var r' := Routed(r, res); forall pid :: pid in r'.pending ==> pid in r'.order
  {
    if |r.pending| >= MAX_PENDING && r.order != [] {
      assert r.order == [r.order[0]] + r.order[1..];
    }
  }

  lemma {:induction false} KeysWithin(keys: set<int>, order: seq<int>)
    requires forall k :: k in keys ==> k in order
    ensures |keys| <= |order|
  {
    if order != [] {
      var rest := keys - {order[0]};
      assert order == [order[0]] + order[1..];
      KeysWithin(rest, order[1..]);
      assert keys <= rest + {order[0]};
      SubsetCard(keys, rest + {order[0]});
    } else {
      assert forall k :: k in keys ==> k in order;
      assert keys <= {};
    }
  }

  lemma {:induction false} SubsetCard(a: set<int>, b: set<int>)
    requires a <= b
    ensures |a| <= |b|
  {
    assert b == a + (b - a);
  }

  lemma StashSizes(r: Registry, served: nat, res: WaitResult)
    requires res.pid !in r.waiters && res.pid !in r.pending
    requires |r.pending| <= |r.order| <= |r.pending| + served && |r.order| <= MAX_PENDING + served
    ensures var r' := Routed(r, res);
            |r'.order| <= |r'.pending| + served && |r'.order| <= MAX_PENDING + served
  {
    var oldest := if r.order != [] then r.order[0] else 0;
    MapRemoveCard(r.pending, oldest);
    MapAddCard(r.pending, res.pid, res);
    MapAddCard(r.pending - {oldest}, res.pid, res);
  }

  lemma OrderSoundStash(r: Registry, reaped: seq<WaitResult>, served: nat, res: WaitResult)
    requires OrderSound(r, reaped, served) && DistinctPids(reaped + [res]) && res.pid !in r.waiters
    ensures OrderSound(Routed(r, res), reaped + [res], served)
  {
    FreshPid(reaped, res);
    OrderPush(r.order, reaped, res, if |r.pending| >= MAX_PENDING && r.order != [] then 1 else 0);
    StashListed(r, res);
    StashSizes(r, served, res);
    KeysWithin(Routed(r, res).pending.Keys, Routed(r, res).order);
  }

  lemma OrderSoundStep(h: History, e: Event)
    requires OrderSound(h.reg, h.reaped, h.served) && DistinctPids(Step(h, e).reaped)
    ensures OrderSound(Step(h, e).reg, Step(h, e).reaped, Step(h, e).served)
  {
    match e
    case Reap(res) =>
      if res.pid in h.reg.waiters {
        forall pid {
          WasReapedGrows(h.reaped, res, pid);
        }
      } else {
        OrderSoundStash(h.reg, h.reaped, h.served, res);
      }
    case Register(pid) =>
      MapRemoveCard(h.reg.pending, pid);
  }

  lemma ReapedPrefix(h: History, events: seq<Event>)
    requires events != [] && DistinctPids(Run(h, events).reaped)
    ensures DistinctPids(Run(h, events[..|events| - 1]).reaped)
  {
    var before := Run(h, events[..|events| - 1]);
    var e := events[|events| - 1];
    assert forall i :: 0 <= i < |before.reaped| ==> Step(before, e).reaped[i] == before.reaped[i];
  }

  lemma {:induction false} OrderSoundRun(h: History, events: seq<Event>)
    requires OrderSound(h.reg, h.reaped, h.served) && DistinctPids(Run(h, events).reaped)
    ensures var h' := Run(h, events); OrderSound(h'.reg, h'.reaped, h'.served)
  {
    if events != [] {
      ReapedPrefix(h, events);
      OrderSoundRun(h, events[..|events| - 1]);
      OrderSoundStep(Run(h, events[..|events| - 1]), events[|events| - 1]);
    }
  }

  /** The bounds that hold of every run in which no pid repeats. */
  lemma StashStaysBounded(events: seq<Event>)
    requires DistinctPids(Run(START, events).reaped)
    ensures var h := Run(START, events);
            && |h.reg.pending| <= |h.reg.order| <= 512 + h.served
            && OrderSound(h.reg, h.reaped, h.served)
  {
    OrderSoundRun(START, events);
  }

  /** The cap the unit test states, for runs in which the stash served no register. */
  lemma StashWithinCapWhenNothingServed(events: seq<Event>)
    requires DistinctPids(Run(START, events).reaped) && Run(START, events).served == 0
    ensures |Run(START, events).reg.pending| <= 512
  {
    StashStaysBounded(events);
  }

  /** One status takes the stash over its cap exactly when it is full, has no waiter, and the
      front of `order` names a status the stash no longer holds. */
  lemma StashOverflowsExactlyWhen(r: Registry, res: WaitResult)
    requires |r.pending| <= MAX_PENDING && res.pid !in r.pending
    ensures |Routed(r, res).pending| > MAX_PENDING
       <==> |r.pending| == MAX_PENDING && res.pid !in r.waiters && (r.order == [] || r.order[0] !in r.pending)
  {
    var oldest := if r.order != [] then r.order[0] else 0;
    var kept := if |r.pending| >= MAX_PENDING && r.order != [] then r.pending - {oldest} else r.pending;
    MapRemoveCard(r.pending, oldest);
    MapAddCard(kept, res.pid, res);
  }

  function Status(pid: int): WaitResult {
    WaitResult(pid, Some(0), None)
  }

  /** One served register, then `n` orphans. */
  function OneServedThenOrphans(n: nat): seq<Event> {
    if n == 0 then [Reap(Status(0)), Register(0)]
    else OneServedThenOrphans(n - 1) + [Reap(Status(n))]
  }

  /** Pid 0 is a stale entry of `order`; pids 1 to `n` are stashed. */
  ghost predicate StaleFront(r: Registry, n: nat) {
    && r.order == seq(n + 1, i => i)
    && |r.pending| == n
    && r.waiters == map[]
    && (forall pid :: pid in r.pending <==> 1 <= pid <= n)
  }

  lemma StaleFrontStash(r: Registry, n: nat)
    requires n < MAX_PENDING && StaleFront(r, n)
    ensures StaleFront(Routed(r, Status(n + 1)), n + 1)
  {
    MapAddCard(r.pending, n + 1, Status(n + 1));
    assert seq(n + 1, i => i) + [n + 1] == seq(n + 2, i => i);
  }

  lemma {:induction false} OneServedThenOrphansState(n: nat)
    requires n <= MAX_PENDING
    ensures StaleFront(Run(START, OneServedThenOrphans(n)).reg, n)
  {
    var events := OneServedThenOrphans(n);
    if n == 0 {
      assert events[..1] == [Reap(Status(0))] && events[..1][..0] == [];
      assert Run(START, events[..1]) == Step(START, Reap(Status(0)));
      MapRemoveCard(map[0 := Status(0)], 0);
    } else {
      OneServedThenOrphansState(n - 1);
      assert events[..|events| - 1] == OneServedThenOrphans(n - 1);
      StaleFrontStash(Run(START, OneServedThenOrphans(n - 1)).reg, n - 1);
    }
  }

  /** The cap is not unconditional: a served register leaves its entry in `order`, and evicting
      that entry frees no room. */
  lemma StashCanExceedCap()
    ensures |Run(START, OneServedThenOrphans(MAX_PENDING + 1)).reg.pending| == MAX_PENDING + 1
  {
    OneServedThenOrphansState(MAX_PENDING);
    var events := OneServedThenOrphans(MAX_PENDING + 1);
    assert events[..|events| - 1] == OneServedThenOrphans(MAX_PENDING);
    var r := Run(START, OneServedThenOrphans(MAX_PENDING)).reg;
    MapRemoveCard(r.pending, r.order[0]);
    MapAddCard(r.pending - {r.order[0]}, MAX_PENDING + 1, Status(MAX_PENDING + 1));
  }

  // ----------------------------------------------------------- conservation

  function One(b: bool): nat {
    if b then 1 else 0
  }

  /** In how many of the three places a status is. */
  ghost function Places(h: History, res: WaitResult): nat {
    One(Delivered(h.reg, res)) + One(Stashed(h.reg, res)) + One(res in h.evicted)
  }

  ghost predicate DeliveredOnce(r: Registry) {
    forall a, b :: 0 <= a < b < |r.inbox| && r.inbox[a] != [] ==> r.inbox[a] != r.inbox[b]
  }

  /** Each reaped status is in exactly one place and reached at most one receiver; nothing else
      is in any place. */
  ghost predicate Conserved(h: History) {
    && DeliveredOnce(h.reg)
    && (forall res :: Places(h, res) == One(res in h.reaped))
  }

  lemma DeliveredBySend(r: Registry, inbox: seq<seq<WaitResult>>, rx: nat, sent: WaitResult, res: WaitResult)
    requires rx < |inbox| && inbox[rx] == [sent]
    requires |r.inbox| <= |inbox| <= |r.inbox| + 1 && (rx < |r.inbox| ==> r.inbox[rx] == []) && rx < |inbox|
    requires |inbox| > |r.inbox| ==> rx == |r.inbox|
    requires forall i :: 0 <= i < |r.inbox| && i != rx ==> inbox[i] == r.inbox[i]
    ensures Delivered(r.(inbox := inbox), res) <==> Delivered(r, res) || res == sent
  {
    if Delivered(r, res) {
      var i :| 0 <= i < |r.inbox| && r.inbox[i] == [res];
      assert inbox[i] == [res];
    }
  }

  lemma ConservedRouteToWaiter(h: History, res: WaitResult)
    requires Conserved(h) && ReceiversSound(h.reg, h.asked) && DistinctPids(h.reaped + [res])
    requires res.pid in h.reg.waiters
    ensures Conserved(Step(h, Reap(res)))
  {
    FreshPid(h.reaped, res);
    assert WaitsEmpty(h.reg, h.asked, res.pid);
    var h' := Step(h, Reap(res));
    assert Places(h, res) == 0 by {
      assert res !in h.reaped;
    }
    forall other
      ensures Places(h', other) == One(other in h'.reaped)
    {
      DeliveredBySend(h.reg, h'.reg.inbox, h.reg.waiters[res.pid], res, other);
      assert Places(h, other) == One(other in h.reaped);
    }
  }

  lemma ConservedStash(h: History, res: WaitResult)
    requires Conserved(h) && OrderSound(h.reg, h.reaped, h.served) && DistinctPids(h.reaped + [res])
    requires forall pid :: pid in h.reg.pending ==> h.reg.pending[pid].pid == pid
    requires res.pid !in h.reg.waiters
    ensures Conserved(Step(h, Reap(res)))
  {
    FreshPid(h.reaped, res);
    var h' := Step(h, Reap(res));
    assert h'.reg.inbox == h.reg.inbox;
    assert res.pid !in h.reg.order && res !in h.reaped;
    forall other
      ensures Places(h', other) == One(other in h'.reaped)
    {
      assert Places(h, other) == One(other in h.reaped);
      assert Places(h, res) == One(res in h.reaped);
      assert Delivered(h'.reg, other) <==> Delivered(h.reg, other);
      StashMoves(h.reg, res, other);
    }
  }

  /** Stashing a new pid moves at most one status, from the stash to the evicted. */
  lemma StashMoves(r: Registry, res: WaitResult, other: WaitResult)
    requires res.pid !in r.waiters && res.pid !in r.pending
    requires forall pid :: pid in r.pending ==> r.pending[pid].pid == pid
    ensures One(Stashed(Routed(r, res), other)) + One(other in Evictions(r, res))
         == One(Stashed(r, other)) + One(other == res)
  {
    if |r.pending| >= MAX_PENDING && r.order != [] && r.order[0] in r.pending {
      assert Evictions(r, res) == [r.pending[r.order[0]]];
      assert other in Evictions(r, res) <==> other == r.pending[r.order[0]];
      assert r.pending[r.order[0]].pid == r.order[0];
    } else {
      assert Evictions(r, res) == [];
      assert other.pid != res.pid ==> (Stashed(Routed(r, res), other) <==> Stashed(r, other));
    }
  }

  lemma ConservedRegister(h: History, pid: int)
    requires Conserved(h)
    requires forall p :: p in h.reg.pending ==> h.reg.pending[p].pid == p
    ensures Conserved(Step(h, Register(pid)))
  {
    var h' := Step(h, Register(pid));
    var n := |h.reg.inbox|;
    if pid in h.reg.pending {
      var res := h.reg.pending[pid];
      assert Places(h, res) == One(res in h.reaped);
      forall other
        ensures Places(h', other) == One(other in h'.reaped)
      {
        DeliveredBySend(h.reg, h'.reg.inbox, n, res, other);
        assert Places(h, other) == One(other in h.reaped);
      }
    } else {
      forall other
        ensures Places(h', other) == One(other in h'.reaped)
      {
        assert Places(h, other) == One(other in h.reaped);
        if Delivered(h.reg, other) {
          var i :| 0 <= i < n && h.reg.inbox[i] == [other];
          assert h'.reg.inbox[i] == [other];
        }
      }
    }
  }

  /** Conservation over every run in which no pid repeats. */
  lemma {:induction false} EveryStatusIsInOnePlace(events: seq<Event>)
    requires DistinctPids(Run(START, events).reaped)
    ensures Conserved(Run(START, events))
  {
    if events != [] {
      ReapedPrefix(START, events);
      var earlier := events[..|events| - 1];
      var h := Run(START, earlier);
      EveryStatusIsInOnePlace(earlier);
      StashStaysBounded(earlier);
      EachReceiverGetsItsOwnStatusAtMostOnce(earlier);
      match events[|events| - 1]
      case Reap(res) =>
        if res.pid in h.reg.waiters {
          ConservedRouteToWaiter(h, res);
        } else {
          ConservedStash(h, res);
        }
      case Register(pid) =>
        ConservedRegister(h, pid);
    }
  }

  // ------------------------------------------- a late register is still served

  function IndexIn(order: seq<int>, pid: int): (i: nat)
    requires pid in order
    ensures i < |order| && order[i] == pid && pid !in order[..i]
  {
    if order[0] == pid then 0 else 1 + IndexIn(order[1..], pid)
  }

  /** The stashes a stashed status can still outlive: free room, plus the entries of `order`
      that must be dropped before its own. */
  function Lifetime(r: Registry, pid: int): nat
    requires pid in r.order
  {
    (if |r.pending| < MAX_PENDING then MAX_PENDING - |r.pending| else 0) + IndexIn(r.order, pid)
  }

  predicate IsStash(r: Registry, e: Event) {
    e.Reap? && e.res.pid !in r.waiters
  }

  function Stashes(h: History, events: seq<Event>): nat {
    if events == [] then 0
    else
      var earlier := events[..|events| - 1];
      Stashes(h, earlier) + One(IsStash(Run(h, earlier).reg, events[|events| - 1]))
  }

  lemma IndexAfterPush(order: seq<int>, pid: int, newcomer: int, drop: nat)
    requires pid in order && drop <= 1 && drop <= IndexIn(order, pid)
    ensures pid in order[drop..] + [newcomer]
    ensures IndexIn(order[drop..] + [newcomer], pid) == IndexIn(order, pid) - drop
  {
    var i := IndexIn(order, pid);
    var pushed := order[drop..] + [newcomer];
    assert pushed[i - drop] == pid;
    assert forall k :: 0 <= k < i - drop ==> pushed[k] == order[..i][k + drop];
  }

  lemma LifetimeStash(r: Registry, pid: int, res: WaitResult)
    requires res.pid !in r.waiters && res.pid !in r.order && pid in r.pending
    requires forall p :: p in r.pending ==> p in r.order
    requires Lifetime(r, pid) > 0
    ensures var r' := Routed(r, res);
            && pid in r'.pending && r'.pending[pid] == r.pending[pid]
            && pid in r'.order && Lifetime(r', pid) >= Lifetime(r, pid) - 1
  {
    var oldest := r.order[0];
    MapRemoveCard(r.pending, oldest);
    MapAddCard(r.pending, res.pid, res);
    MapAddCard(r.pending - {oldest}, res.pid, res);
    IndexAfterPush(r.order, pid, res.pid, if |r.pending| >= MAX_PENDING then 1 else 0);
  }

  /** The status stashed for `pid` in `r` is still stashed in `r'`, with at most `n` of its
      lifetime spent. */
  predicate Outlived(r: Registry, r': Registry, pid: int, n: nat) {
    && pid in r.pending && pid in r.order
    && pid in r'.pending && r'.pending[pid] == r.pending[pid]
    && pid in r'.order && Lifetime(r', pid) + n >= Lifetime(r, pid)
  }

  lemma LifetimeStep(h: History, pid: int, e: Event)
    requires OrderSound(h.reg, h.reaped, h.served) && DistinctPids(Step(h, e).reaped)
    requires pid in h.reg.pending && e != Register(pid)
    requires IsStash(h.reg, e) ==> Lifetime(h.reg, pid) > 0
    ensures Outlived(h.reg, Step(h, e).reg, pid, One(IsStash(h.reg, e)))
  {
    match e
    case Reap(res) =>
      FreshPid(h.reaped, res);
      if IsStash(h.reg, e) {
        LifetimeStash(h.reg, pid, res);
      }
    case Register(p) =>
      MapRemoveCard(h.reg.pending, p);
  }

  lemma OutlivedThen(r0: Registry, r1: Registry, r2: Registry, pid: int, m: nat, n: nat)
    requires Outlived(r0, r1, pid, m) && Outlived(r1, r2, pid, n)
    ensures Outlived(r0, r2, pid, m + n)
  {
  }

  lemma {:induction false} LifetimeRun(h: History, pid: int, b: seq<Event>)
    requires OrderSound(h.reg, h.reaped, h.served) && DistinctPids(Run(h, b).reaped)
    requires pid in h.reg.pending && Register(pid) !in b
    requires Stashes(h, b) <= Lifetime(h.reg, pid)
    ensures Outlived(h.reg, Run(h, b).reg, pid, Stashes(h, b))
  {
    if b != [] {
      var earlier, e := b[..|b| - 1], b[|b| - 1];
      var h1 := Run(h, earlier);
      ReapedPrefix(h, b);
      LifetimeRun(h, pid, earlier);
      OrderSoundRun(h, earlier);
      LifetimeStep(h1, pid, e);
      OutlivedThen(h.reg, h1.reg, Step(h1, e).reg, pid, Stashes(h, earlier), One(IsStash(h1.reg, e)));
    }
  }

  lemma {:induction false} DistinctPrefix(h: History, b: seq<Event>)
    requires DistinctPids(Run(h, b).reaped)
    ensures DistinctPids(h.reaped)
  {
    if b != [] {
      ReapedPrefix(h, b);
      DistinctPrefix(h, b[..|b| - 1]);
    }
  }

  /** The promise of the stash: a status reaped before its register is delivered to that
      register as long as fewer than 512 later statuses were stashed in between,
      whatever other registers and routed statuses are mixed in. */
  lemma {:induction false} LateRegisterIsServed(a: seq<Event>, res: WaitResult, b: seq<Event>)
    requires DistinctPids(Run(Step(Run(START, a), Reap(res)), b).reaped)
    requires res.pid !in Run(START, a).reg.waiters && Register(res.pid) !in b
    requires Stashes(Step(Run(START, a), Reap(res)), b) < 512
    ensures var h := Run(Step(Run(START, a), Reap(res)), b);
            Step(h, Register(res.pid)).reg.inbox == h.reg.inbox + [[res]]
  {
    var h0 := Run(START, a);
    var h1 := Step(h0, Reap(res));
    DistinctPrefix(h1, b);
    FreshPid(h0.reaped, res);
    StashStaysBounded(a);
    OrderSoundStep(h0, Reap(res));
    FirstLifetime(h0.reg, h0.reaped, h0.served, res);
    LifetimeRun(h1, res.pid, b);
  }

  /** A status starts with at least MAX_PENDING - 1 stashes to outlive. */
  lemma FirstLifetime(r: Registry, reaped: seq<WaitResult>, served: nat, res: WaitResult)
    requires OrderSound(r, reaped, served) && DistinctPids(reaped + [res]) && res.pid !in r.waiters
    ensures var r' := Routed(r, res);
            res.pid in r'.order && r'.pending[res.pid] == res && Lifetime(r', res.pid) >= MAX_PENDING - 1
  {
    OrderSoundStash(r, reaped, served, res);
    var r' := Routed(r, res);
    assert r'.order[|r'.order| - 1] == res.pid;
    assert IndexIn(r'.order, res.pid) == |r'.order| - 1;
  }

  predicate Concerns(e: Event, pid: int) {
    match e
    case Reap(res) => res.pid == pid
    case Register(p) => p == pid
  }

  lemma {:induction false} WaiterPersists(h: History, pid: int, b: seq<Event>)
    requires ReceiversSound(h.reg, h.asked) && pid in h.reg.waiters
    requires forall e :: e in b ==> !Concerns(e, pid)
    ensures var h' := Run(h, b);
            ReceiversSound(h'.reg, h'.asked) && pid in h'.reg.waiters && h'.reg.waiters[pid] == h.reg.waiters[pid]
  {
    if b != [] {
      var earlier, e := b[..|b| - 1], b[|b| - 1];
      assert e in b && forall k :: k in earlier ==> k in b;
      WaiterPersists(h, pid, earlier);
      var h1 := Run(h, earlier);
      match e
      case Reap(res) => ReceiversSoundRoute(h1.reg, h1.asked, res);
      case Register(p) => ReceiversSoundRegister(h1.reg, h1.asked, p);
    }
  }

  lemma SendToEmpty(r: Registry, res: WaitResult)
    requires res.pid in r.waiters && r.waiters[res.pid] < |r.inbox| && r.inbox[r.waiters[res.pid]] == []
    ensures Routed(r, res).inbox == r.inbox[r.waiters[res.pid] := [res]]
  {
    assert [] + [res] == [res];
  }

  /** The other order: a register that finds nothing stashed is served by the reap that
      follows, whatever happens to other pids in between. */
  lemma {:induction false} EarlyRegisterIsServed(a: seq<Event>, res: WaitResult, b: seq<Event>)
    requires res.pid !in Run(START, a).reg.pending
    requires forall e :: e in b ==> !Concerns(e, res.pid)
    ensures var rx := |Run(START, a).reg.inbox|;
            var h := Run(Step(Run(START, a), Register(res.pid)), b);
            rx < |h.reg.inbox| && Step(h, Reap(res)).reg.inbox == h.reg.inbox[rx := [res]]
  {
    var h0 := Run(START, a);
    EachReceiverGetsItsOwnStatusAtMostOnce(a);
    ReceiversSoundRegister(h0.reg, h0.asked, res.pid);
    var h1 := Step(h0, Register(res.pid));
    WaiterPersists(h1, res.pid, b);
    var h := Run(h1, b);
    assert WaitsEmpty(h.reg, h.asked, res.pid);
    SendToEmpty(h.reg, res);
  }

  /** `n` orphans in a row. */
  function Orphans(n: nat): seq<Event> {
    if n == 0 then [] else Orphans(n - 1) + [Reap(Status(n - 1))]
  }

  ghost predicate Unclaimed(r: Registry, n: nat) {
    && r.order == seq(n, i => i)
    && |r.pending| == n
    && r.waiters == map[]
    && (forall pid :: pid in r.pending <==> 0 <= pid < n)
  }

  lemma OrphanStash(r: Registry, n: nat)
    requires n < MAX_PENDING && Unclaimed(r, n)
    ensures Unclaimed(Routed(r, Status(n)), n + 1)
  {
    MapAddCard(r.pending, n, Status(n));
    assert seq(n, i => i) + [n] == seq(n + 1, i => i);
  }

  lemma {:induction false} OrphansState(n: nat)
    requires n <= MAX_PENDING
    ensures Unclaimed(Run(START, Orphans(n)).reg, n)
  {
    if n > 0 {
      OrphansState(n - 1);
      assert Orphans(n)[..|Orphans(n)| - 1] == Orphans(n - 1);
      OrphanStash(Run(START, Orphans(n - 1)).reg, n - 1);
    }
  }

  /** The bound is tight: the 512th later stash evicts it. */
  lemma LateRegisterBoundIsTight()
    ensures Status(0).pid !in Run(START, Orphans(513)).reg.pending
  {
    OrphansState(MAX_PENDING);
    var events := Orphans(MAX_PENDING + 1);
    assert events[..|events| - 1] == Orphans(MAX_PENDING);
  }
}
