// The per-IP limiter of internal/risk/pending.go: pending slots, timed
// blocks, lazy expiry, deletion and sweeps, against a ledger that never
// forgets anything.
module PendingLimiter {
  import opened Prelude

  // ------------------------------------------------------- specification

  // Instants are positive nanoseconds; zero stands for "no instant".
  datatype Slot = Slot(pending: int, blockedUntil: int)

  datatype Limiter = Limiter(slots: map<string, Slot>, closed: bool, lastSweep: int, autoBlocks: nat)

  datatype Limits = Limits(maxPerIP: int, blockTTL: int)

  const SWEEP_INTERVAL := 30_000_000_000
  const HOUR := 3_600_000_000_000

  // The constructor's fallbacks.
  function Sane(l: Limits): Limits {
    Limits(if l.maxPerIP < 1 then 1 else l.maxPerIP, if l.blockTTL <= 0 then HOUR else l.blockTTL)
  }

  // Positive settings are taken as they are; the others become one slot and
  // one hour.
  lemma PositiveLimitsAreKept(l: Limits)
    ensures Sane(l) == l <==> l.maxPerIP >= 1 && l.blockTTL >= 1
    ensures Sane(l) == Limits(if l.maxPerIP >= 1 then l.maxPerIP else 1, if l.blockTTL >= 1 then l.blockTTL else 3_600_000_000_000)
  {
  }

  predicate BlockedAt(now: int, e: Slot) {
    now < e.blockedUntil
  }

  function Expire(now: int, e: Slot): Slot {
    if e.blockedUntil != 0 && !(now < e.blockedUntil) then e.(blockedUntil := 0) else e
  }

  predicate Idle(now: int, e: Slot) {
    e.pending == 0 && !BlockedAt(now, e)
  }

  function SlotOf(slots: map<string, Slot>, ip: string): Slot {
    if ip in slots then slots[ip] else Slot(0, 0)
  }

  function SweptSlots(slots: map<string, Slot>, now: int): map<string, Slot> {
    map ip | ip in slots && !Idle(now, Expire(now, slots[ip])) :: Expire(now, slots[ip])
  }

  function SweepNext(s: Limiter, now: int): Limiter {
    if s.lastSweep != 0 && now - s.lastSweep < SWEEP_INTERVAL then s
    else s.(slots := SweptSlots(s.slots, now), lastSweep := now)
  }

  // (blocked, state) after a canonical address asks for a slot.
  function EnterNext(l: Limits, s: Limiter, ip: string, now: int): (bool, Limiter) {
    if s.closed then (true, s)
    else
      var s' := SweepNext(s, now);
      var e := Expire(now, SlotOf(s'.slots, ip));
      if BlockedAt(now, e) then (true, s'.(slots := s'.slots[ip := e]))
      else if e.pending >= l.maxPerIP then
        (true, s'.(slots := s'.slots[ip := e.(blockedUntil := now + l.blockTTL)], autoBlocks := s'.autoBlocks + 1))
      else
        (false, s'.(slots := s'.slots[ip := e.(pending := e.pending + 1)]))
  }

  function ReleaseNext(s: Limiter, ip: string, now: int): Limiter {
    if s.closed || ip !in s.slots then s
    else
      var held := s.slots[ip];
      var e := Expire(now, held.(pending := if held.pending > 0 then held.pending - 1 else held.pending));
      if Idle(now, e) then s.(slots := s.slots - {ip}) else s.(slots := s.slots[ip := e])
  }

  function CloseNext(s: Limiter): Limiter {
    if s.closed then s else s.(closed := true, slots := map[])
  }

  // ------------------------------------------------------------ the limiter

  class IPPendingBlocker {
    const limits: Limits
    // netip parsing and IPv4-mapped normalisation; None for anything invalid.
    const canonicalIP: string -> Option<string>
    var slots: map<string, Slot>
    var closed: bool
    var lastSweep: int
    var autoBlocks: nat

    constructor (l: Limits, canonicalIP: string -> Option<string>)
      ensures limits == Sane(l) && this.canonicalIP == canonicalIP && State() == Limiter(map[], false, 0, 0)
    {
      limits := Sane(l);
      this.canonicalIP := canonicalIP;
      slots, closed, lastSweep, autoBlocks := map[], false, 0, 0;
    }

    ghost function State(): Limiter
      reads this
    {
      Limiter(slots, closed, lastSweep, autoBlocks)
    }

    // Reserves a slot. An invalid address is neither limited nor blocked.
    method Enter(rawIP: string, now: int) returns (release: ReleaseHandle, blocked: bool)
      modifies this
      ensures fresh(release) && !release.done && release.blocker == this
      ensures match canonicalIP(rawIP)
              case None => !blocked && State() == old(State()) && release.ip.None?
              case Some(ip) => (blocked, State()) == EnterNext(limits, old(State()), ip, now)
                               && release.ip == if blocked then None else Some(ip)
    {
      var canonical := canonicalIP(rawIP);
      if canonical.None? {
        release := new ReleaseHandle(this, None);
        return release, false;
      }
      var ip := canonical.value;
      if closed {
        release := new ReleaseHandle(this, None);
        return release, true;
      }
      Sweep(now);
      var e := Expire(now, SlotOf(slots, ip));
      if BlockedAt(now, e) {
        slots := slots[ip := e];
        release := new ReleaseHandle(this, None);
        return release, true;
      }
      if e.pending >= limits.maxPerIP {
        slots := slots[ip := e.(blockedUntil := now + limits.blockTTL)];
        autoBlocks := autoBlocks + 1;
        release := new ReleaseHandle(this, None);
        return release, true;
      }
      slots := slots[ip := e.(pending := e.pending + 1)];
      release := new ReleaseHandle(this, Some(ip));
      return release, false;
    }

    // Walks all entries while updating and deleting them.
    method Sweep(now: int)
      modifies this
      ensures State() == SweepNext(old(State()), now)
    {
      if lastSweep != 0 && now - lastSweep < SWEEP_INTERVAL { return; }
      lastSweep := now;
      var todo := slots.Keys;
      ghost var all := slots;
      while todo != {}
        invariant todo <= slots.Keys && closed == old(closed) && autoBlocks == old(autoBlocks) && lastSweep == now
        invariant forall ip :: ip in todo ==> ip in all && slots[ip] == all[ip]
        invariant slots == map ip | ip in all && (ip in todo || !Idle(now, Expire(now, all[ip])))
                             :: if ip in todo then all[ip] else Expire(now, all[ip])
        decreases todo
      {
        var ip :| ip in todo;
        var e := Expire(now, slots[ip]);
        if Idle(now, e) { slots := slots - {ip}; } else { slots := slots[ip := e]; }
        todo := todo - {ip};
      }
    }

    method Release(ip: string, now: int)
      modifies this
      ensures State() == ReleaseNext(old(State()), ip, now)
    {
      if closed || ip !in slots { return; }
      var e := slots[ip];
      if e.pending > 0 { e := e.(pending := e.pending - 1); }
      e := Expire(now, e);
      if Idle(now, e) { slots := slots - {ip}; return; }
      slots := slots[ip := e];
    }

    method Close()
      modifies this
      ensures State() == CloseNext(old(State()))
    {
      if closed { return; }
      closed, slots := true, map[];
    }
  }

  // The function handed to the caller: effective at most once, and never for
  // a request that was refused or not limited.
  class ReleaseHandle {
    const blocker: IPPendingBlocker
    const ip: Option<string>
    var done: bool

    constructor (blocker: IPPendingBlocker, ip: Option<string>)
      ensures this.blocker == blocker && this.ip == ip && !done
    {
      this.blocker, this.ip, done := blocker, ip, false;
    }

    method Call(now: int)
      modifies this, blocker
      ensures done
      ensures blocker.State() == if old(done) || ip.None? then old(blocker.State())
                                 else ReleaseNext(old(blocker.State()), ip.value, now)
    {
      if !done && ip.Some? { blocker.Release(ip.value, now); }
      done := true;
    }
  }

  // ------------------------------------------------------------- the ledger

  datatype Start = Start(ip: string, at: int)

  // Outstanding slots and every block ever started; nothing is forgotten.
  datatype Ledger = Ledger(outstanding: multiset<string>, starts: seq<Start>, closed: bool)

  // The end of the latest block of this address, zero if there was none.
  function BlockEnd(l: Limits, starts: seq<Start>, ip: string): int {
    if starts == [] then 0
    else if starts[|starts| - 1].ip == ip then starts[|starts| - 1].at + l.blockTTL
    else BlockEnd(l, starts[..|starts| - 1], ip)
  }

  function LedgerEnter(l: Limits, b: Ledger, ip: string, now: int): (bool, Ledger) {
    if b.closed || now < BlockEnd(l, b.starts, ip) then (true, b)
    else if b.outstanding[ip] >= l.maxPerIP then (true, b.(starts := b.starts + [Start(ip, now)]))
    else (false, b.(outstanding := b.outstanding + multiset{ip}))
  }

  // ---------------------------------------------------------------- runs

  datatype Event = Enter(rawIP: string, now: int) | Release(handle: nat, now: int) | Close(now: int)

  // A handle that holds a slot, or a no-op.
  datatype Ticket = Ticket(ip: Option<string>, done: bool)

  datatype Run = Run(limiter: Limiter, ledger: Ledger, tickets: seq<Ticket>, answers: seq<bool>, ledgerAnswers: seq<bool>, clock: int)

  const IDLE := Run(Limiter(map[], false, 0, 0), Ledger(multiset{}, [], false), [], [], [], 0)

  // Both machines make the same event; tickets are handed out on the
  // limiter's answer.
  function Next(l: Limits, canon: string -> Option<string>, r: Run, e: Event): Run {
    match e
    case Enter(raw, now) =>
      if canon(raw).None? then
        r.(tickets := r.tickets + [Ticket(None, false)], answers := r.answers + [false],
           ledgerAnswers := r.ledgerAnswers + [false], clock := now)
      else
        var ip := canon(raw).value;
        var (blocked, limiter) := EnterNext(l, r.limiter, ip, now);
        var (refused, ledger) := LedgerEnter(l, r.ledger, ip, now);
        Run(limiter, ledger, r.tickets + [Ticket(if blocked then None else Some(ip), false)],
            r.answers + [blocked], r.ledgerAnswers + [refused], now)
    case Release(h, now) =>
      if h < |r.tickets| && !r.tickets[h].done && r.tickets[h].ip.Some? then
        var ip := r.tickets[h].ip.value;
        r.(limiter := ReleaseNext(r.limiter, ip, now),
           ledger := if r.ledger.closed then r.ledger else r.ledger.(outstanding := r.ledger.outstanding - multiset{ip}),
           tickets := r.tickets[h := r.tickets[h].(done := true)], clock := now)
      else r.(clock := now)
    case Close(now) =>
      r.(limiter := CloseNext(r.limiter), ledger := r.ledger.(closed := true), clock := now)
  }

  function After(l: Limits, canon: string -> Option<string>, events: seq<Event>): Run {
    if events == [] then IDLE else Next(l, canon, After(l, canon, events[..|events| - 1]), events[|events| - 1])
  }

  ghost predicate Chronological(events: seq<Event>) {
    (forall i :: 0 <= i < |events| ==> 0 < events[i].now)
    && forall i, j :: 0 <= i < j < |events| ==> events[i].now <= events[j].now
  }

  // Handles for this address that have not been released.
  function Holding(tickets: seq<Ticket>, ip: string): nat {
    if tickets == [] then 0
    else Holding(tickets[..|tickets| - 1], ip)
         + if tickets[|tickets| - 1] == Ticket(Some(ip), false) then 1 else 0
  }

  ghost predicate Positive(l: Limits) {
    l.maxPerIP >= 1 && l.blockTTL > 0
  }

  // One address: same pending count, and the same block unless both see none.
  ghost predicate SameSlot(l: Limits, r: Run, ip: string) {
    var e := SlotOf(r.limiter.slots, ip);
    var end := BlockEnd(l, r.ledger.starts, ip);
    && e.pending == r.ledger.outstanding[ip] == Holding(r.tickets, ip)
    && 0 <= e.pending <= l.maxPerIP
    && (e.blockedUntil == end || (e.blockedUntil == 0 && end <= r.clock))
  }

  ghost predicate Inv(l: Limits, r: Run) {
    && 0 <= r.clock
    && r.answers == r.ledgerAnswers
    && r.limiter.closed == r.ledger.closed
    && (!r.limiter.closed ==> forall ip :: SameSlot(l, r, ip))
    && r.limiter.autoBlocks == |r.ledger.starts|
    && StartsApart(l, r.ledger.starts)
    && forall i :: 0 <= i < |r.ledger.starts| ==> r.ledger.starts[i].at <= r.clock
  }

  // Two blocks of one address start at least blockTTL apart.
  ghost predicate StartsApart(l: Limits, starts: seq<Start>) {
    forall i, j :: 0 <= i < j < |starts| && starts[i].ip == starts[j].ip ==> starts[i].at + l.blockTTL <= starts[j].at
  }

  // ---------------------------------------------------------- the refinement

  lemma {:induction false} HoldingNew(tickets: seq<Ticket>, t: Ticket, ip: string)
    ensures Holding(tickets + [t], ip) == Holding(tickets, ip) + if t == Ticket(Some(ip), false) then 1 else 0
  {
    assert (tickets + [t])[..|tickets|] == tickets;
  }

  lemma {:induction false} HoldingReleased(tickets: seq<Ticket>, h: nat, ip: string)
    requires h < |tickets| && !tickets[h].done
    ensures Holding(tickets, ip)
         == Holding(tickets[h := tickets[h].(done := true)], ip) + if tickets[h].ip == Some(ip) then 1 else 0
  {
    var after, last := tickets[h := tickets[h].(done := true)], |tickets| - 1;
    if h == last {
      assert after[..last] == tickets[..last];
    } else {
      assert after[..last] == tickets[..last][h := tickets[h].(done := true)];
      HoldingReleased(tickets[..last], h, ip);
    }
  }

  lemma {:induction false} BlocksEndAfterStarts(l: Limits, starts: seq<Start>, i: nat)
    requires StartsApart(l, starts) && i < |starts| && l.blockTTL > 0
    ensures starts[i].at + l.blockTTL <= BlockEnd(l, starts, starts[i].ip)
  {
    var last := |starts| - 1;
    if starts[last].ip != starts[i].ip { BlocksEndAfterStarts(l, starts[..last], i); }
  }

  // Sweeping only does what looking at an entry would do anyway.
  lemma SweepIsLazyExpiry(s: Limiter, now: int, ip: string)
    requires now > 0
    ensures Expire(now, SlotOf(SweepNext(s, now).slots, ip)) == Expire(now, SlotOf(s.slots, ip))
    ensures SlotOf(SweepNext(s, now).slots, ip) in {SlotOf(s.slots, ip), Expire(now, SlotOf(s.slots, ip))}
  {
  }

  // At most every 30 seconds, and then nothing idle stays behind.
  lemma SweepDropsIdle(s: Limiter, now: int)
    ensures var swept := SweepNext(s, now);
            if s.lastSweep == 0 || now >= s.lastSweep + 30_000_000_000
            then && swept.lastSweep == now
                 && forall ip :: ip in swept.slots ==> ip in s.slots && (swept.slots[ip].pending != 0 || now < swept.slots[ip].blockedUntil)
            else swept == s
  {
  }

  // Later, or expired: the two views of a block still agree.
  lemma SlotStaysSame(l: Limits, r: Run, r': Run, ip: string)
    requires SameSlot(l, r, ip) && r.clock <= r'.clock && 0 < r'.clock
    requires SlotOf(r'.limiter.slots, ip) in {SlotOf(r.limiter.slots, ip), Expire(r'.clock, SlotOf(r.limiter.slots, ip))}
    requires BlockEnd(l, r'.ledger.starts, ip) == BlockEnd(l, r.ledger.starts, ip)
    requires r'.ledger.outstanding[ip] == r.ledger.outstanding[ip] && Holding(r'.tickets, ip) == Holding(r.tickets, ip)
    ensures SameSlot(l, r', ip)
  {
  }

  lemma NewStart(l: Limits, starts: seq<Start>, ip: string, now: int)
    requires StartsApart(l, starts) && l.blockTTL > 0 && BlockEnd(l, starts, ip) <= now
    ensures StartsApart(l, starts + [Start(ip, now)])
    ensures forall other :: BlockEnd(l, starts + [Start(ip, now)], other)
                         == if other == ip then now + l.blockTTL else BlockEnd(l, starts, other)
  {
    var more := starts + [Start(ip, now)];
    assert more[..|starts|] == starts;
    forall i | 0 <= i < |starts| && starts[i].ip == ip ensures starts[i].at + l.blockTTL <= now {
      BlocksEndAfterStarts(l, starts, i);
    }
  }

  // The two machines answer one request alike.
  lemma SameAnswer(l: Limits, r: Run, ip: string, now: int)
    requires Positive(l) && Inv(l, r) && r.clock <= now && 0 < now
    ensures EnterNext(l, r.limiter, ip, now).0 == LedgerEnter(l, r.ledger, ip, now).0
    ensures !r.limiter.closed ==> var e := Expire(now, SlotOf(r.limiter.slots, ip));
              BlockedAt(now, e) <==> now < BlockEnd(l, r.ledger.starts, ip)
  {
    if !r.limiter.closed {
      assert SameSlot(l, r, ip);
      SweepIsLazyExpiry(r.limiter, now, ip);
    }
  }

  lemma EnterKeepsInv(l: Limits, canon: string -> Option<string>, r: Run, raw: string, now: int)
    requires Positive(l) && Inv(l, r) && r.clock <= now && 0 < now
    ensures Inv(l, Next(l, canon, r, Enter(raw, now)))
  {
    var r' := Next(l, canon, r, Enter(raw, now));
    if canon(raw).None? {
      if !r.limiter.closed {
        forall ip ensures SameSlot(l, r', ip) {
          HoldingNew(r.tickets, r'.tickets[|r.tickets|], ip);
          assert SameSlot(l, r, ip);
        }
      }
    } else {
      var ip := canon(raw).value;
      SameAnswer(l, r, ip, now);
      if !r.limiter.closed {
        if !LedgerEnter(l, r.ledger, ip, now).0 || r'.ledger != r.ledger {
          assert BlockEnd(l, r.ledger.starts, ip) <= now;
          NewStart(l, r.ledger.starts, ip, now);
        }
        forall other ensures SameSlot(l, r', other) {
          if other == ip { EnterOwnSlot(l, canon, r, raw, now); } else { EnterOtherSlot(l, canon, r, raw, now, other); }
        }
      }
    }
  }

  lemma EnterOwnSlot(l: Limits, canon: string -> Option<string>, r: Run, raw: string, now: int)
    requires Positive(l) && Inv(l, r) && r.clock <= now && 0 < now && canon(raw).Some? && !r.limiter.closed
    ensures SameSlot(l, Next(l, canon, r, Enter(raw, now)), canon(raw).value)
  {
    var r', ip := Next(l, canon, r, Enter(raw, now)), canon(raw).value;
    HoldingNew(r.tickets, r'.tickets[|r.tickets|], ip);
    SameAnswer(l, r, ip, now);
    assert SameSlot(l, r, ip);
    SweepIsLazyExpiry(r.limiter, now, ip);
  }

  lemma EnterOtherSlot(l: Limits, canon: string -> Option<string>, r: Run, raw: string, now: int, other: string)
    requires Positive(l) && Inv(l, r) && r.clock <= now && 0 < now && canon(raw).Some? && !r.limiter.closed && other != canon(raw).value
    ensures SameSlot(l, Next(l, canon, r, Enter(raw, now)), other)
  {
    var r' := Next(l, canon, r, Enter(raw, now));
    HoldingNew(r.tickets, r'.tickets[|r.tickets|], other);
    SameAnswer(l, r, canon(raw).value, now);
    assert SameSlot(l, r, other);
    SweepIsLazyExpiry(r.limiter, now, other);
    assert SlotOf(r'.limiter.slots, other) == SlotOf(SweepNext(r.limiter, now).slots, other);
    SlotStaysSame(l, r, r', other);
  }

  lemma ReleaseKeepsInv(l: Limits, canon: string -> Option<string>, r: Run, h: nat, now: int)
    requires Positive(l) && Inv(l, r) && r.clock <= now && 0 < now
    ensures Inv(l, Next(l, canon, r, Release(h, now)))
  {
    var r' := Next(l, canon, r, Release(h, now));
    var effective := h < |r.tickets| && !r.tickets[h].done && r.tickets[h].ip.Some?;
    if !r.limiter.closed {
      forall ip ensures SameSlot(l, r', ip) {
        assert SameSlot(l, r, ip);
        if effective {
          HoldingReleased(r.tickets, h, ip);
          if ip != r.tickets[h].ip.value {
            assert SlotOf(r'.limiter.slots, ip) == SlotOf(r.limiter.slots, ip);
            SlotStaysSame(l, r, r', ip);
          }
        }
      }
    }
  }

  lemma {:induction false} RunKeepsInv(l: Limits, canon: string -> Option<string>, events: seq<Event>)
    requires Positive(l) && Chronological(events)
    ensures var r := After(l, canon, events);
            Inv(l, r) && (if events == [] then r == IDLE else r.clock == events[|events| - 1].now)
  {
    if events != [] {
      var last := |events| - 1;
      var e, r := events[last], After(l, canon, events[..last]);
      RunKeepsInv(l, canon, events[..last]);
      assert r.clock <= e.now && 0 < e.now;
      match e {
        case Enter(raw, now) => EnterKeepsInv(l, canon, r, raw, now);
        case Release(h, now) => ReleaseKeepsInv(l, canon, r, h, now);
        case Close(_) =>
      }
    }
  }

  // Over every interleaving of Enter, (repeated) release and Close the
  // limiter answers exactly like the ledger. Until Close the stored pending
  // count of an address is the number of its unreleased handles and never
  // exceeds the limit, and blocks of one address start at least blockTTL
  // apart, one per reported automatic block.
  lemma {:induction false} LimiterRefinesLedger(l: Limits, canon: string -> Option<string>, events: seq<Event>)
    requires Chronological(events)
    ensures var r := After(Sane(l), canon, events);
            && r.answers == r.ledgerAnswers
            && (!r.limiter.closed ==> forall ip ::
                  SlotOf(r.limiter.slots, ip).pending == Holding(r.tickets, ip) <= Sane(l).maxPerIP)
            && StartsApart(Sane(l), r.ledger.starts) && r.limiter.autoBlocks == |r.ledger.starts|
  {
    var r := After(Sane(l), canon, events);
    RunKeepsInv(Sane(l), canon, events);
    if !r.limiter.closed {
      forall ip ensures SlotOf(r.limiter.slots, ip).pending == Holding(r.tickets, ip) <= Sane(l).maxPerIP {
        assert SameSlot(Sane(l), r, ip);
      }
    }
  }

  // A refusal during a block leaves the end of every block where it was.
  lemma RefusalNeverExtends(l: Limits, s: Limiter, ip: string, now: int)
    requires !s.closed && now > 0 && now < SlotOf(s.slots, ip).blockedUntil
    ensures var (blocked, s') := EnterNext(l, s, ip, now);
            && blocked && s'.autoBlocks == s.autoBlocks
            && forall other :: now < SlotOf(s.slots, other).blockedUntil || now < SlotOf(s'.slots, other).blockedUntil ==>
                 SlotOf(s'.slots, other) == SlotOf(s.slots, other)
  {
    forall other { SweepIsLazyExpiry(s, now, other); }
  }

  // A request that got a slot and gave it back leaves no trace: the same
  // pending counts, and nobody blocked who was not blocked before.
  lemma SlotIsGivenBack(l: Limits, s: Limiter, ip: string, now: int, later: int)
    requires !s.closed && 0 < now <= later && !EnterNext(l, s, ip, now).0
    requires forall other :: other in s.slots ==> s.slots[other].pending >= 0
    ensures var after := ReleaseNext(EnterNext(l, s, ip, now).1, ip, later);
            && !after.closed && after.autoBlocks == s.autoBlocks
            && forall other ::
                 && SlotOf(after.slots, other).pending == SlotOf(s.slots, other).pending
                 && (BlockedAt(later, SlotOf(after.slots, other)) <==> BlockedAt(later, SlotOf(s.slots, other)))
  {
    var entered := EnterNext(l, s, ip, now).1;
    var after := ReleaseNext(entered, ip, later);
    forall other
      ensures SlotOf(after.slots, other).pending == SlotOf(s.slots, other).pending
      ensures BlockedAt(later, SlotOf(after.slots, other)) <==> BlockedAt(later, SlotOf(s.slots, other))
    {
      SweepIsLazyExpiry(s, now, other);
      assert other != ip ==> SlotOf(after.slots, other) == SlotOf(SweepNext(s, now).slots, other);
    }
  }
}
