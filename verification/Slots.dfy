/** The network slot allocator: concurrent scans over one non-blocking `flock` per slot, in two
    pools, and the names and addresses a slot index stands for. */
module Slots {
  import opened Wrappers
  import Text

  const MAX_SLOT_COUNT := 250
  const IFNAMSIZ := 16

  // -------------------------------------------------------- names and addresses

  /** `tap_name`; `None` where the source reports an interface name that is too long. */
  function TapName(i: nat): Option<string> {
    var name := "isopod-tap" + Text.Dec(i);
    if |name| >= IFNAMSIZ then None else Some(name)
  }

  function HexDigit(d: nat): char
    requires d < 16
  {
    "0123456789abcdef"[d]
  }

  /** `guest_mac` of a slot whose index fits an octet. */
  function GuestMac(i: nat): string
    requires i < 256
  {
    "06:00:0a:6b:" + [HexDigit(i / 16), HexDigit(i % 16)] + ":02"
  }

  /** An IPv4 address as a number. */
  function Address(octets: (nat, nat, nat, nat)): nat {
    ((octets.0 * 256 + octets.1) * 256 + octets.2) * 256 + octets.3
  }

  function HostAddress(i: nat): nat { Address((10, 107, i, 1)) }

  function GuestAddress(i: nat): nat { Address((10, 107, i, 2)) }

  /** The address is in slot `i`'s 10.107.i.0/30. */
  predicate InBlock(a: nat, i: nat) {
    Address((10, 107, i, 0)) <= a < Address((10, 107, i, 0)) + 4
  }

  lemma TapNameFits(i: nat)
    requires i < 1000
    ensures TapName(i) == Some("isopod-tap" + Text.Dec(i))
  {
    assert Text.Pow10(3) == 1000;
    Text.DecLength(i, 3);
  }

  lemma TapNamesDiffer(i: nat, j: nat)
    requires i != j && TapName(i).Some? && TapName(j).Some?
    ensures TapName(i) != TapName(j)
  {
    assert ("isopod-tap" + Text.Dec(i))[10..] == Text.Dec(i);
    assert ("isopod-tap" + Text.Dec(j))[10..] == Text.Dec(j);
    if TapName(i) == TapName(j) {
      Text.DecInjective(i, j);
    }
  }

  lemma MacsDiffer(i: nat, j: nat)
    requires i < 256 && j < 256 && GuestMac(i) == GuestMac(j)
    ensures i == j
  {
    var a, b := GuestMac(i), GuestMac(j);
    assert a[12] == HexDigit(i / 16) && a[13] == HexDigit(i % 16);
    assert b[12] == HexDigit(j / 16) && b[13] == HexDigit(j % 16);
    HexDigitsDiffer(i / 16, j / 16);
    HexDigitsDiffer(i % 16, j % 16);
  }

  lemma HexDigitsDiffer(d: nat, e: nat)
    requires d < 16 && e < 16 && HexDigit(d) == HexDigit(e)
    ensures d == e
  {
    var digits := "0123456789abcdef";
    assert forall k :: 0 <= k < 16 ==> digits[k] as int == (if k < 10 then 48 + k else 87 + k);
  }

  /** A hexadecimal digit read as a number. */
  function HexValue(c: char): int {
    if '0' <= c <= '9' then c as int - '0' as int else if 'a' <= c <= 'f' then c as int - 'a' as int + 10 else -1
  }

  /** A MAC is six octets, locally administered, whose last but one is the slot and whose others
      are 06:00:0a:6b and 02. */
  lemma MacNamesTheSlot(i: nat)
    requires i < 256
    ensures var mac := GuestMac(i);
            && |mac| == 17 && mac[..12] == "06:00:0a:6b:" && mac[14..] == ":02"
            && 0 <= HexValue(mac[12]) < 16 && 0 <= HexValue(mac[13]) < 16
            && HexValue(mac[12]) * 16 + HexValue(mac[13]) == i
  {
    var digits := "0123456789abcdef";
    assert forall k :: 0 <= k < 16 ==> HexValue(digits[k]) == k;
    var mac := GuestMac(i);
    assert mac == "06:00:0a:6b:" + [HexDigit(i / 16), HexDigit(i % 16)] + ":02";
    assert mac[12] == HexDigit(i / 16) && mac[13] == HexDigit(i % 16);
  }

  /** Both ends of a slot's link are in its block, the first and second addresses after that of the
      network 10.107.i.0, and no address is in the blocks of two slots. */
  lemma BlocksAreDisjoint(i: nat, j: nat, a: nat)
    requires i != j
    ensures HostAddress(i) == 0x0A6B_0001 + 256 * i && GuestAddress(i) == 0x0A6B_0002 + 256 * i
    ensures InBlock(a, i) <==> 0x0A6B_0000 + 256 * i <= a <= 0x0A6B_0003 + 256 * i
    ensures InBlock(HostAddress(i), i) && InBlock(GuestAddress(i), i) && HostAddress(i) != GuestAddress(i)
    ensures !(InBlock(a, i) && InBlock(a, j))
  {
  }

  // -------------------------------------------------------------------- manifest

  datatype Manifest = Manifest(slotCount: nat, filteredFromField: Option<nat>) {
    /** An absent or out-of-range field means that no slot is filtered. */
    function FilteredFrom(): nat {
      if filteredFromField.Some? && filteredFromField.value <= slotCount then filteredFromField.value else slotCount
    }

    function FilteredCount(): nat {
      if FilteredFrom() <= slotCount then slotCount - FilteredFrom() else 0
    }

    predicate IsFiltered(i: nat) {
      FilteredFrom() <= i < slotCount
    }

    /** The range a claim of each kind scans. */
    function Pool(filtered: bool): (nat, nat) {
      if filtered then (FilteredFrom(), slotCount) else (0, FilteredFrom())
    }
  }

  predicate InPool(m: Manifest, filtered: bool, i: nat) {
    m.Pool(filtered).0 <= i < m.Pool(filtered).1
  }

  /** The two pools cover the provisioned slots, and a slot is in the one its kind says. */
  lemma PoolsPartition(m: Manifest, i: nat)
    ensures i < m.slotCount <==> InPool(m, true, i) || InPool(m, false, i)
    ensures !(InPool(m, true, i) && InPool(m, false, i))
    ensures InPool(m, true, i) <==> m.IsFiltered(i)
    ensures m.IsFiltered(i) <==> m.filteredFromField.Some? && m.filteredFromField.value <= i < m.slotCount
    ensures m.FilteredCount() == 0 <==> m.filteredFromField.None? || m.filteredFromField.value >= m.slotCount
  {
  }

  // ------------------------------------------------------------------- one claim

  /** What the kernel answers when a slot's lockfile is tried. */
  datatype Answer = Granted | Busy | Broken

  datatype ClaimError = InvalidRange | BadName | NoneUsable | AllInUse | NoFilteredSlots

  predicate ValidRange(lo: nat, hi: nat) {
    0 < hi <= MAX_SLOT_COUNT && lo <= hi
  }

  /** `claim_range_in`: `answer(i)` is the kernel's answer at the moment slot `i` is tried. */
  method ClaimRangeIn(lo: nat, hi: nat, answer: nat -> Answer) returns (r: Result<nat, ClaimError>)
    ensures r == Err(InvalidRange) <==> !ValidRange(lo, hi)
    ensures r != Err(BadName) && r != Err(NoFilteredSlots)
    ensures r.Ok? ==> lo <= r.value < hi && answer(r.value) == Granted
                      && forall i :: lo <= i < r.value ==> answer(i) != Granted
    ensures r == Err(NoneUsable) <==> ValidRange(lo, hi) && lo < hi && forall i :: lo <= i < hi ==> answer(i) == Broken
    ensures r == Err(AllInUse) <==>
              && ValidRange(lo, hi) && (forall i :: lo <= i < hi ==> answer(i) != Granted)
              && (lo == hi || exists i :: lo <= i < hi && answer(i) == Busy)
  {
    if hi == 0 || hi > MAX_SLOT_COUNT || lo > hi {
      return Err(InvalidRange);
    }
    var unusable := 0;
    for i := lo to hi
      invariant forall j :: lo <= j < i ==> answer(j) != Granted
      invariant unusable <= i - lo
      invariant unusable == i - lo <==> forall j :: lo <= j < i ==> answer(j) == Broken
    {
      TapNameFits(i);
      if TapName(i).None? || i > 255 {
        return Err(BadName);
      }
      match answer(i) {
        case Granted => return Ok(i);
        case Busy =>
        case Broken => unusable := unusable + 1;
      }
    }
    if unusable != 0 && unusable == hi - lo {
      return Err(NoneUsable);
    }
    return Err(AllInUse);
  }

  /** `claim` and `claim_filtered`. */
  method Claim(m: Manifest, filtered: bool, answer: nat -> Answer) returns (r: Result<nat, ClaimError>)
    ensures r.Ok? ==> InPool(m, filtered, r.value) && answer(r.value) == Granted
    ensures r == Err(NoFilteredSlots) <==> filtered && m.FilteredCount() == 0
    // A host whose slots are all filtered answers a public claim with "invalid range".
    ensures r == Err(InvalidRange) <==>
              if filtered then m.FilteredCount() > 0 && m.slotCount > 250
              else m.FilteredFrom() == 0 || m.FilteredFrom() > 250
  {
    if filtered && m.FilteredCount() == 0 {
      return Err(NoFilteredSlots);
    }
    r := ClaimRangeIn(m.Pool(filtered).0, m.Pool(filtered).1, answer);
  }

  // ----------------------------------------------------------- concurrent claims

  /** One claim call, named by the open file description it locks with, so a new one each call. */
  type ClaimId = nat

  datatype Phase =
    | Scanning(next: nat)
    | Holding(slot: nat)
    | Failed
    | Over            // released, or its process died

  datatype Call = Call(filtered: bool, phase: Phase)

  datatype State = State(calls: map<ClaimId, Call>, locks: map<nat, ClaimId>)

  /** A crash may strike anywhere; the kernel then drops the lock. */
  datatype Event =
    | Begin(c: ClaimId, filtered: bool)
    | Probe(c: ClaimId, broken: bool)
    | Release(c: ClaimId)
    | Crash(c: ClaimId)

  const START := State(map[], map[])

  function WithPhase(s: State, c: ClaimId, phase: Phase): State
    requires c in s.calls
  {
    s.(calls := s.calls[c := s.calls[c].(phase := phase)])
  }

  /** `Ok(Some)`, `Ok(None)` or `Err` of `try_claim_slot`, or the scan's end. */
  function Probed(m: Manifest, s: State, c: ClaimId, broken: bool): State
    requires c in s.calls && s.calls[c].phase.Scanning?
  {
    var i := s.calls[c].phase.next;
    if i >= m.Pool(s.calls[c].filtered).1 then WithPhase(s, c, Failed)
    else if broken || i in s.locks then WithPhase(s, c, Scanning(i + 1))
    else WithPhase(s, c, Holding(i)).(locks := s.locks[i := c])
  }

  function Ended(s: State, c: ClaimId): State
    requires c in s.calls
  {
    var phase := s.calls[c].phase;
    WithPhase(s, c, Over).(locks := if phase.Holding? then s.locks - {phase.slot} else s.locks)
  }

  /** An event that cannot happen in a state leaves it unchanged. */
  function Step(m: Manifest, s: State, e: Event): State {
    match e
    case Begin(c, filtered) =>
      if c in s.calls || !ValidRange(m.Pool(filtered).0, m.Pool(filtered).1) then s
      else s.(calls := s.calls[c := Call(filtered, Scanning(m.Pool(filtered).0))])
    case Probe(c, broken) =>
      if c in s.calls && s.calls[c].phase.Scanning? then Probed(m, s, c, broken) else s
    case Release(c) =>
      if c in s.calls && s.calls[c].phase.Holding? then Ended(s, c) else s
    case Crash(c) =>
      if c in s.calls then Ended(s, c) else s
  }

  function Run(m: Manifest, events: seq<Event>): State {
    if events == [] then START else Step(m, Run(m, events[..|events| - 1]), events[|events| - 1])
  }

  predicate Holds(s: State, c: ClaimId, i: nat) {
    c in s.calls && s.calls[c].phase == Holding(i)
  }

  /** The lock table and the claims agree, and a claim works in its own pool. */
  ghost predicate Inv(m: Manifest, s: State) {
    && HoldersLock(s) && LocksHeld(s)
    && forall c :: c in s.calls ==> CallInv(m, s.calls[c])
  }

  predicate CallInv(m: Manifest, call: Call) {
    && ValidRange(m.Pool(call.filtered).0, m.Pool(call.filtered).1)
    && (call.phase.Scanning? ==> m.Pool(call.filtered).0 <= call.phase.next <= m.Pool(call.filtered).1)
    && (call.phase.Holding? ==> InPool(m, call.filtered, call.phase.slot))
  }

  ghost predicate HoldersLock(s: State) {
    forall c: ClaimId, i: nat :: Holds(s, c, i) ==> i in s.locks && s.locks[i] == c
  }

  ghost predicate LocksHeld(s: State) {
    forall i: nat :: i in s.locks ==> Holds(s, s.locks[i], i)
  }

  lemma StepKeepsLocks(m: Manifest, s: State, e: Event)
    requires Inv(m, s)
    ensures HoldersLock(Step(m, s, e))
  {
    var t := Step(m, s, e);
    forall c: ClaimId, i: nat | Holds(t, c, i)
      ensures i in t.locks && t.locks[i] == c
    {
      assert Holds(s, c, i) || (e.Probe? && e.c == c && i !in s.locks);
      if e.c in s.calls && s.calls[e.c].phase.Holding? {
        assert Holds(s, e.c, s.calls[e.c].phase.slot);
      }
    }
  }

  lemma StepKeepsHolders(m: Manifest, s: State, e: Event)
    requires Inv(m, s)
    ensures LocksHeld(Step(m, s, e))
  {
    var t := Step(m, s, e);
    forall i: nat | i in t.locks
      ensures Holds(t, t.locks[i], i)
    {
      if i in s.locks {
        assert Holds(s, s.locks[i], i);
      }
    }
  }

  lemma StepKeepsInv(m: Manifest, s: State, e: Event)
    requires Inv(m, s)
    ensures Inv(m, Step(m, s, e))
  {
    StepKeepsLocks(m, s, e);
    StepKeepsHolders(m, s, e);
    var t := Step(m, s, e);
    forall c | c in t.calls
      ensures CallInv(m, t.calls[c])
    {
      if c in s.calls {
        assert CallInv(m, s.calls[c]);
      }
    }
  }

  lemma {:induction false} Reachable(m: Manifest, events: seq<Event>)
    ensures Inv(m, Run(m, events))
  {
    if events != [] {
      Reachable(m, events[..|events| - 1]);
      StepKeepsInv(m, Run(m, events[..|events| - 1]), events[|events| - 1]);
    }
  }

  /** At most one holder per slot, each in its own pool, and two holders never share a tap name,
      a MAC or an address block. */
  lemma OneHolderPerSlot(m: Manifest, events: seq<Event>, c: ClaimId, i: nat, d: ClaimId, j: nat)
    requires Holds(Run(m, events), c, i) && Holds(Run(m, events), d, j) && c != d
    ensures i != j && i < m.slotCount && i < 250 && j < 250
    ensures m.IsFiltered(i) <==> Run(m, events).calls[c].filtered
    ensures TapName(i).Some? && |TapName(i).value| <= 15 && TapName(i) != TapName(j) && GuestMac(i) != GuestMac(j)
    ensures forall a :: !(InBlock(a, i) && InBlock(a, j))
  {
    var s := Run(m, events);
    Reachable(m, events);
    assert CallInv(m, s.calls[c]) && CallInv(m, s.calls[d]);
    TapNameFits(i);
    TapNameFits(j);
    TapNamesDiffer(i, j);
    if GuestMac(i) == GuestMac(j) {
      MacsDiffer(i, j);
    }
    forall a
      ensures !(InBlock(a, i) && InBlock(a, j))
    {
      BlocksAreDisjoint(i, j, a);
    }
  }

  /** At step `t` claim `c` tried slot `i` and did not get it: it would not open, or another claim
      held it at that moment. */
  predicate Refused(m: Manifest, events: seq<Event>, c: ClaimId, i: nat, t: nat) {
    && t < |events| && events[t].Probe? && events[t].c == c
    && var s := Run(m, events[..t]);
       && c in s.calls && s.calls[c].phase == Scanning(i)
       && (events[t].broken || (i in s.locks && s.locks[i] != c))
  }

  ghost predicate TriedInVain(m: Manifest, events: seq<Event>, c: ClaimId, i: nat) {
    exists t: nat :: Refused(m, events, c, i, t)
  }

  lemma StillRefused(m: Manifest, events: seq<Event>, c: ClaimId, i: nat)
    requires events != [] && TriedInVain(m, events[..|events| - 1], c, i)
    ensures TriedInVain(m, events, c, i)
  {
    var t: nat :| Refused(m, events[..|events| - 1], c, i, t);
    assert events[..|events| - 1][..t] == events[..t];
    assert Refused(m, events, c, i, t);
  }

  /** The end of what a call has tried. */
  function TriedTo(m: Manifest, call: Call): nat {
    match call.phase
    case Scanning(next) => next
    case Holding(slot) => slot
    case Failed => m.Pool(call.filtered).1
    case Over => 0
  }

  /** A success means that every lower slot of the pool was held by another claim or unusable at
      the moment it was tried; a failure, that every slot of the pool was. */
  lemma {:induction false} LowestFreeSlot(m: Manifest, events: seq<Event>, c: ClaimId, i: nat)
    requires c in Run(m, events).calls
    requires m.Pool(Run(m, events).calls[c].filtered).0 <= i < TriedTo(m, Run(m, events).calls[c])
    ensures TriedInVain(m, events, c, i)
  {
    if events != [] {
      var before, e := events[..|events| - 1], events[|events| - 1];
      var s, t := Run(m, before), Run(m, events);
      Reachable(m, before);
      if c in s.calls && i < TriedTo(m, s.calls[c]) {
        LowestFreeSlot(m, before, c, i);
        StillRefused(m, events, c, i);
      } else if c in s.calls {
        assert e.c == c;
        assert CallInv(m, s.calls[c]);
        if i in s.locks {
          assert Holds(s, s.locks[i], i);
        }
        assert Refused(m, events, c, i, |events| - 1);
      }
    }
  }

  // ---------------------------------------------------------------- what a claim gets

  /** The call tries `n` more slots, and none fails to open. */
  function Tries(m: Manifest, s: State, c: ClaimId, n: nat): State {
    if n == 0 then s else Step(m, Tries(m, s, c, n - 1), Probe(c, false))
  }

  lemma {:induction false} TriesOver(m: Manifest, s: State, c: ClaimId, i: nat, n: nat)
    requires c in s.calls && s.calls[c].phase == Scanning(i) && i + n <= m.Pool(s.calls[c].filtered).1
    requires forall j :: i <= j < i + n ==> j in s.locks
    ensures Tries(m, s, c, n) == WithPhase(s, c, Scanning(i + n))
  {
    if n == 0 {
      assert s.calls == s.calls[c := s.calls[c].(phase := Scanning(i))];
    } else {
      TriesOver(m, s, c, i, n - 1);
      assert WithPhase(WithPhase(s, c, Scanning(i + n - 1)), c, Scanning(i + n)).calls == WithPhase(s, c, Scanning(i + n)).calls;
    }
  }

  lemma GetsSlot(m: Manifest, s: State, c: ClaimId, i: nat)
    requires c in s.calls && s.calls[c].phase == Scanning(i) && i < m.Pool(s.calls[c].filtered).1 && i !in s.locks
    ensures var r := Step(m, s, Probe(c, false));
            Holds(r, c, i) && r.locks == s.locks[i := c] && r.calls == s.calls[c := Call(s.calls[c].filtered, Holding(i))]
  {
  }

  /** A claim that begins while a slot of its pool is free and every lower one is held gets it, in as
      many tries. */
  lemma GetsTheLowestFree(m: Manifest, s: State, c: ClaimId, filtered: bool, i: nat)
    requires c !in s.calls && 0 < m.Pool(filtered).1 <= 250 && InPool(m, filtered, i)
    requires i !in s.locks && forall j :: m.Pool(filtered).0 <= j < i ==> j in s.locks
    ensures var r := Tries(m, Step(m, s, Begin(c, filtered)), c, i - m.Pool(filtered).0 + 1);
            Holds(r, c, i) && r.locks == s.locks[i := c] && (forall d :: d in s.calls ==> d in r.calls && r.calls[d] == s.calls[d])
  {
    var b := Step(m, s, Begin(c, filtered));
    assert b.calls == s.calls[c := Call(filtered, Scanning(m.Pool(filtered).0))] && b.locks == s.locks;
    TriesOver(m, b, c, m.Pool(filtered).0, i - m.Pool(filtered).0);
    GetsSlot(m, WithPhase(b, c, Scanning(i)), c, i);
    hide Step;
  }

  /** When every slot of its pool is held it fails, after it has tried them all. */
  lemma FailsWhenAllAreHeld(m: Manifest, s: State, c: ClaimId, filtered: bool)
    requires c !in s.calls && 0 < m.Pool(filtered).1 <= 250
    requires forall j :: InPool(m, filtered, j) ==> j in s.locks
    ensures var (lo, hi) := m.Pool(filtered);
            var r := Tries(m, Step(m, s, Begin(c, filtered)), c, hi - lo + 1);
            c in r.calls && r.calls[c].phase == Failed && r.locks == s.locks
  {
    var b := Step(m, s, Begin(c, filtered));
    TriesOver(m, b, c, m.Pool(filtered).0, m.Pool(filtered).1 - m.Pool(filtered).0);
  }

  /** A released slot, or that of a process that died, is free, and nobody else's is. */
  lemma EndFreesTheSlot(m: Manifest, events: seq<Event>, c: ClaimId, i: nat, e: Event)
    requires Holds(Run(m, events), c, i) && (e == Release(c) || e == Crash(c))
    ensures Step(m, Run(m, events), e).locks == Run(m, events).locks - {i} && i in Run(m, events).locks
  {
    Reachable(m, events);
  }
}
