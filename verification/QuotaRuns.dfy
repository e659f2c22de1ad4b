// The max_uses cap over whole runs: requests validate and charge in separate
// steps, interleaved in any way with other requests and with the cleanup loop
// (internal/app/app.go) that deletes usage records.
module QuotaRuns {
  import opened Prelude
  import opened Token
  import opened UsageStores
  import opened Auth
  import opened Samples

  // Time is in nanoseconds; tokens and records live on whole seconds.
  function Unix(now: int): int {
    now / SECOND
  }

  // now.Add(-grace).Unix(), the cleanup threshold.
  function Threshold(now: int, grace: int): int {
    (now - grace) / SECOND
  }

  // A token that passed validation and whose request has yet to charge.
  datatype Flight = Flight(id: string, expiresAt: int, validatedAt: int, payload: TokenPayload, sign: string)

  // `stamp` is the time written into the record: the PoW-only flow passes the
  // validation time, the risk path reads the clock again.
  datatype Step =
    | Validate(payload: TokenPayload, sign: string, path: string, now: int)
    | Consume(request: nat, req: AuthRequest, token: string, stamp: int, now: int)
    | Sweep(now: int)

  datatype World = World(store: UsageState, flights: seq<Flight>, charged: multiset<string>, clock: int)

  const EMPTY := World(UsageState(false, map[]), [], multiset{}, 0)

  function NewFlight(lib: Library, p: TokenPayload, sign: string, now: int): Flight {
    Flight(ComputeSignID(lib, p, sign, p.mode), p.expiresAt, now, p, sign)
  }

  function InputOf(lib: Library, cfg: Config, f: Flight, step: Step): ConsumeInput
    requires step.Consume?
  {
    if f.payload.mode == GENERIC then GenericInput(lib, cfg, f.payload, step.req, step.token, f.sign, step.stamp)
    else BindingInput(lib, cfg, f.payload, step.req, step.token, f.sign, step.stamp)
  }

  function Charge(w: World, input: ConsumeInput, now: int): World {
    var (r, store) := ConsumeNext(w.store, input, Unix(now));
    var counts := r.Ok? && r.value.allowed && !input.skipConsume;
    w.(store := store, charged := if counts then w.charged + multiset{input.id} else w.charged, clock := now)
  }

  ghost function Next(lib: Library, cfg: Config, w: World, step: Step): World {
    match step
    case Validate(p, sign, path, now) =>
      if ValidateTokenForMode(lib, cfg, p, p.mode, path, sign, Unix(now)).None?
      then w.(flights := w.flights + [NewFlight(lib, p, sign, now)], clock := now)
      else w.(clock := now)
    case Consume(i, _, _, _, now) =>
      if i < |w.flights| then Charge(w, InputOf(lib, cfg, w.flights[i], step), now) else w.(clock := now)
    case Sweep(now) =>
      w.(store := CleanupNext(w.store, Threshold(now, cfg.gracePeriod)), clock := now)
  }

  ghost function Run(lib: Library, cfg: Config, steps: seq<Step>): World {
    if steps == [] then EMPTY
    else Next(lib, cfg, Run(lib, cfg, steps[..|steps| - 1]), steps[|steps| - 1])
  }

  // Time never runs backwards and no request lingers longer than `gap`
  // between its validation and its charge.
  ghost predicate Timely(w: World, step: Step, gap: int) {
    && w.clock <= step.now
    && (step.Consume? && step.request < |w.flights| ==> step.now - w.flights[step.request].validatedAt <= gap)
  }

  ghost predicate TimelyRun(lib: Library, cfg: Config, steps: seq<Step>, gap: int) {
    steps != [] ==>
      TimelyRun(lib, cfg, steps[..|steps| - 1], gap)
      && Timely(Run(lib, cfg, steps[..|steps| - 1]), steps[|steps| - 1], gap)
  }

  // SHA-256 tells the pre-images of this run apart.
  ghost predicate NoCollision(fs: seq<Flight>) {
    forall f, g :: f in fs && g in fs && f.id == g.id ==>
      SignIDPreimage(f.payload, f.sign, f.payload.mode) == SignIDPreimage(g.payload, g.sign, g.payload.mode)
  }

  // --------------------------------------- validated tokens and their ids

  ghost predicate Genuine(lib: Library, cfg: Config, f: Flight) {
    && f.payload.mode in {IP_BOUND, GENERIC}
    && f.id == ComputeSignID(lib, f.payload, f.sign, f.payload.mode) && f.expiresAt == f.payload.expiresAt
    && ValidatePayload(lib, f.payload, Some(ModeConfigFor(cfg, f.payload.mode).value.opts)).None?
    && IsValidSignHex(f.sign)
  }

  // A sign id determines the expiry.
  ghost predicate Consistent(fs: seq<Flight>) {
    forall f, g :: f in fs && g in fs && f.id == g.id ==> f.expiresAt == g.expiresAt
  }

  lemma SameIDSameExpiry(lib: Library, cfg: Config, f: Flight, g: Flight)
    requires Genuine(lib, cfg, f) && Genuine(lib, cfg, g)
    requires SignIDPreimage(f.payload, f.sign, f.payload.mode) == SignIDPreimage(g.payload, g.sign, g.payload.mode)
    ensures f.expiresAt == g.expiresAt && f.payload.mode == g.payload.mode
  {
    assert !IsHexDigit('\n');
    PreimageDeterminesFields(lib, f.payload, g.payload, ModeConfigFor(cfg, f.payload.mode).value.opts,
                             ModeConfigFor(cfg, g.payload.mode).value.opts, f.sign, g.sign);
    assert FieldsOf(f.payload).exp == FieldsOf(g.payload).exp;
  }

  lemma {:induction false} FlightsAreGenuine(lib: Library, cfg: Config, steps: seq<Step>)
    ensures forall f :: f in Run(lib, cfg, steps).flights ==> Genuine(lib, cfg, f) && Unix(f.validatedAt) < f.expiresAt
  {
    if steps != [] { FlightsAreGenuine(lib, cfg, steps[..|steps| - 1]); }
  }

  lemma FlightsAreConsistent(lib: Library, cfg: Config, steps: seq<Step>)
    requires NoCollision(Run(lib, cfg, steps).flights)
    ensures Consistent(Run(lib, cfg, steps).flights)
  {
    var fs := Run(lib, cfg, steps).flights;
    FlightsAreGenuine(lib, cfg, steps);
    GenuineIsConsistent(lib, cfg, fs);
  }

  lemma GenuineIsConsistent(lib: Library, cfg: Config, fs: seq<Flight>)
    requires NoCollision(fs) && forall f :: f in fs ==> Genuine(lib, cfg, f)
    ensures Consistent(fs)
  {
    forall f, g | f in fs && g in fs && f.id == g.id ensures f.expiresAt == g.expiresAt {
      SamePreimage(fs, f, g);
      SameIDSameExpiry(lib, cfg, f, g);
    }
  }

  lemma SamePreimage(fs: seq<Flight>, f: Flight, g: Flight)
    requires NoCollision(fs) && f in fs && g in fs && f.id == g.id
    ensures SignIDPreimage(f.payload, f.sign, f.payload.mode) == SignIDPreimage(g.payload, g.sign, g.payload.mode)
  {
  }

  lemma InputMatches(lib: Library, cfg: Config, f: Flight, step: Step)
    requires step.Consume? && Genuine(lib, cfg, f)
    ensures var input := InputOf(lib, cfg, f, step);
            && input.id == f.id && input.expiresAt == f.expiresAt
            && (input.skipConsume || input.maxUses == cfg.maxUses)
  {
  }

  // ------------------------------------------------------------- invariant

  ghost predicate Known(w: World, id: string) {
    exists f :: f in w.flights && f.id == id
  }

  // Expired far enough that no timely charge is possible any more.
  ghost predicate Gone(w: World, grace: int, id: string) {
    forall f :: f in w.flights && f.id == id ==> f.expiresAt < Threshold(w.clock, grace)
  }

  // What holds of one sign id: its record counts at least its charges and
  // carries its expiry, and once the record is gone after a charge the token
  // is gone too.
  ghost predicate IDInv(w: World, grace: int, cap: int, id: string) {
    && (id in w.store.records || id in w.charged ==> Known(w, id))
    && (id in w.store.records ==>
          && w.charged[id] <= w.store.records[id].uses
          && forall f :: f in w.flights && f.id == id ==> w.store.records[id].expiresAt == f.expiresAt)
    && (id in w.charged && id !in w.store.records ==> Gone(w, grace, id))
    && (id in w.charged ==> w.charged[id] <= cap)
  }

  ghost predicate FlightInv(w: World) {
    forall f :: f in w.flights ==> f.validatedAt <= w.clock && Unix(f.validatedAt) < f.expiresAt
  }

  ghost predicate Inv(w: World, grace: int, cap: int) {
    !w.store.closed && FlightInv(w) && forall id :: IDInv(w, grace, cap, id)
  }

  lemma SecondsAgree(now: int, past: int, grace: int)
    requires now - past <= grace + SECOND
    ensures Threshold(now, grace) <= Unix(past) + 1
  {
  }

  lemma ThresholdMonotone(a: int, b: int, grace: int)
    requires a <= b
    ensures Threshold(a, grace) <= Threshold(b, grace)
  {
  }

  lemma GoneStaysGone(w: World, w': World, grace: int, id: string)
    requires w.flights == w'.flights && w.clock <= w'.clock && Gone(w, grace, id)
    ensures Gone(w', grace, id)
  {
    ThresholdMonotone(w.clock, w'.clock, grace);
  }

  lemma ClockKeepsInv(w: World, grace: int, cap: int, now: int)
    requires Inv(w, grace, cap) && w.clock <= now
    ensures Inv(w.(clock := now), grace, cap)
  {
    var w' := w.(clock := now);
    forall id ensures IDInv(w', grace, cap, id) {
      assert IDInv(w, grace, cap, id);
      assert Known(w, id) ==> Known(w', id);
      if id in w.charged && id !in w.store.records { GoneStaysGone(w, w', grace, id); }
    }
  }

  lemma FlightKeepsInv(w: World, grace: int, cap: int, f: Flight)
    requires Inv(w, grace, cap) && w.clock == f.validatedAt && Unix(f.validatedAt) < f.expiresAt
    requires Consistent(w.flights + [f]) && grace >= -SECOND
    ensures Inv(w.(flights := w.flights + [f]), grace, cap)
  {
    var w' := w.(flights := w.flights + [f]);
    SecondsAgree(f.validatedAt, f.validatedAt, grace);
    forall id ensures IDInv(w', grace, cap, id) {
      assert IDInv(w, grace, cap, id);
      if id in w.store.records || id in w.charged {
        var g :| g in w.flights && g.id == id;
        assert g in w'.flights && f in w'.flights;
      }
    }
  }

  lemma SweepKeepsInv(w: World, grace: int, cap: int)
    requires Inv(w, grace, cap)
    ensures Inv(w.(store := CleanupNext(w.store, Threshold(w.clock, grace))), grace, cap)
  {
    var w' := w.(store := CleanupNext(w.store, Threshold(w.clock, grace)));
    forall id ensures IDInv(w', grace, cap, id) {
      assert IDInv(w, grace, cap, id);
      assert Known(w, id) ==> Known(w', id);
      if id in w.charged && id !in w'.store.records {
        if id !in w.store.records { GoneStaysGone(w, w', grace, id); }
      }
    }
  }

  // What one consume does to its own record and to all others.
  lemma ConsumeEffect(s: UsageState, input: ConsumeInput, wall: int)
    requires !s.closed
    ensures var (r, s') := ConsumeNext(s, input, wall);
            && r.Ok? && !s'.closed && s'.records.Keys == s.records.Keys + {input.id}
            && (forall id :: id in s.records && id != input.id ==> s'.records[id] == s.records[id])
            && (var before := if input.id in s.records then s.records[input.id].uses else 0;
                && (r.value.allowed ==> before < input.maxUses)
                && s'.records[input.id].uses == before + (if r.value.allowed && !input.skipConsume then 1 else 0))
            && s'.records[input.id].expiresAt ==
               (if input.id in s.records then s.records[input.id].expiresAt else input.expiresAt)
  {
  }

  // A timely charge finds its record, or none was charged before.
  lemma ChargeKeepsInv(w: World, grace: int, cap: int, f: Flight, input: ConsumeInput)
    requires Inv(w, grace, cap) && Consistent(w.flights) && f in w.flights
    requires w.clock - f.validatedAt <= grace + SECOND
    requires input.id == f.id && input.expiresAt == f.expiresAt && (input.skipConsume || input.maxUses == cap)
    ensures Inv(Charge(w, input, w.clock), grace, cap)
  {
    var w' := Charge(w, input, w.clock);
    ConsumeEffect(w.store, input, Unix(w.clock));
    assert IDInv(w, grace, cap, f.id);
    assert !Gone(w, grace, f.id) by { SecondsAgree(w.clock, f.validatedAt, grace); }
    forall id ensures IDInv(w', grace, cap, id) {
      assert IDInv(w, grace, cap, id);
      assert Known(w, id) ==> Known(w', id);
      if id != f.id && id in w.charged && id !in w.store.records { GoneStaysGone(w, w', grace, id); }
      if id == f.id { assert Known(w', id); }
    }
  }

  // With a grace period below minus one second no charge can be timely.
  lemma {:induction false} NothingIsTimely(lib: Library, cfg: Config, steps: seq<Step>)
    requires cfg.gracePeriod < -SECOND && TimelyRun(lib, cfg, steps, cfg.gracePeriod + SECOND)
    ensures var w := Run(lib, cfg, steps);
            w.charged == multiset{} && forall f :: f in w.flights ==> f.validatedAt <= w.clock
  {
    if steps != [] { NothingIsTimely(lib, cfg, steps[..|steps| - 1]); }
  }

  lemma {:induction false} RunKeepsInv(lib: Library, cfg: Config, steps: seq<Step>)
    requires TimelyRun(lib, cfg, steps, cfg.gracePeriod + SECOND) && cfg.gracePeriod >= -SECOND
    requires Consistent(Run(lib, cfg, steps).flights)
    ensures Inv(Run(lib, cfg, steps), cfg.gracePeriod, cfg.maxUses)
  {
    var grace, cap := cfg.gracePeriod, cfg.maxUses;
    if steps != [] {
      var earlier := steps[..|steps| - 1];
      var w, step := Run(lib, cfg, earlier), steps[|steps| - 1];
      var w' := Run(lib, cfg, steps);
      assert forall f :: f in w.flights ==> f in w'.flights;
      RunKeepsInv(lib, cfg, earlier);
      ClockKeepsInv(w, grace, cap, step.now);
      var now := w.(clock := step.now);
      FlightsAreGenuine(lib, cfg, steps);
      match step {
        case Validate(p, sign, path, _) =>
          if w'.flights != w.flights {
            var f := NewFlight(lib, p, sign, step.now);
            assert f in w'.flights;
            FlightKeepsInv(now, grace, cap, f);
          }
        case Consume(i, _, _, _, _) =>
          if i < |w.flights| {
            InputMatches(lib, cfg, w.flights[i], step);
            ChargeKeepsInv(now, grace, cap, w.flights[i], InputOf(lib, cfg, w.flights[i], step));
          }
        case Sweep(_) => SweepKeepsInv(now, grace, cap);
      }
    }
  }

  ghost predicate CapHolds(lib: Library, cfg: Config, steps: seq<Step>) {
    var charged := Run(lib, cfg, steps).charged;
    forall id :: id in charged ==> charged[id] <= cfg.maxUses
  }

  // Over any run whose validate-to-charge gaps are at most the grace period
  // plus one second, no sign id is charged more than max_uses times, even
  // after its record has been deleted.
  lemma {:induction false} QuotaHoldsOverRuns(lib: Library, cfg: Config, steps: seq<Step>)
    requires TimelyRun(lib, cfg, steps, cfg.gracePeriod + SECOND)
    requires NoCollision(Run(lib, cfg, steps).flights)
    ensures CapHolds(lib, cfg, steps)
  {
    if cfg.gracePeriod < -SECOND {
      NothingIsTimely(lib, cfg, steps);
    } else {
      FlightsAreConsistent(lib, cfg, steps);
      RunKeepsInv(lib, cfg, steps);
      var w := Run(lib, cfg, steps);
      forall id | id in w.charged ensures w.charged[id] <= cfg.maxUses {
        assert IDInv(w, cfg.gracePeriod, cfg.maxUses, id);
      }
    }
  }

  // ------------------------------------------------- the gap bound is exact

  // A collision-free run within the gap that overcharges some sign id.
  ghost predicate Breaks(lib: Library, cfg: Config, steps: seq<Step>, gap: int) {
    TimelyRun(lib, cfg, steps, gap) && NoCollision(Run(lib, cfg, steps).flights) && !CapHolds(lib, cfg, steps)
  }

  ghost predicate CapHoldsUpTo(grace: int, gap: int) {
    forall lib: Library, cfg: Config, steps: seq<Step> :: cfg.gracePeriod == grace ==> !Breaks(lib, cfg, steps, gap)
  }

  lemma {:induction false} ShorterGaps(lib: Library, cfg: Config, steps: seq<Step>, gap: int, longer: int)
    requires TimelyRun(lib, cfg, steps, gap) && gap <= longer
    ensures TimelyRun(lib, cfg, steps, longer)
  {
    if steps != [] { ShorterGaps(lib, cfg, steps[..|steps| - 1], gap, longer); }
  }

  // A deployment in which every sign is accepted.
  const ANY_LIB := Library((_: string) => [], (_: string) => "x", (_: string) => None, (_: string, _: string) => true, (_: string) => None)

  // A sweep between two charges of a one-use id lets both through.
  lemma SweptBetweenCharges(w: World, input: ConsumeInput, first: int, threshold: int, second: int)
    requires w.store == UsageState(false, map[]) && w.charged == multiset{}
    requires input.maxUses == 1 && !input.skipConsume && input.expiresAt < threshold
    ensures var w1 := Charge(w, input, first);
            forall clock :: Charge(w1.(store := CleanupNext(w1.store, threshold), clock := clock), input, second).charged[input.id] == 2
  {
    var w1 := Charge(w, input, first);
    ConsumeEffect(w.store, input, Unix(first));
    var swept := CleanupNext(w1.store, threshold);
    assert w1.charged == multiset{input.id} && input.id !in swept.records;
    ConsumeEffect(swept, input, Unix(second));
  }

  // Two requests with one token, both validated at v.
  lemma CheckedTwice(lib: Library, cfg: Config, check: Step, gap: int)
    requires check.Validate? && check.now >= 0
    requires ValidateTokenForMode(lib, cfg, check.payload, check.payload.mode, check.path, check.sign, Unix(check.now)).None?
    ensures var f := NewFlight(lib, check.payload, check.sign, check.now);
            && Run(lib, cfg, [check] + [check]) == World(UsageState(false, map[]), [f, f], multiset{}, check.now)
            && TimelyRun(lib, cfg, [check] + [check], gap)
  {
    LastStep(lib, cfg, [], check, gap);
    assert [] + [check] == [check];
    CheckPasses(lib, cfg, EMPTY, check);
    var w1 := Run(lib, cfg, [check]);
    LastStep(lib, cfg, [check], check, gap);
    CheckPasses(lib, cfg, w1, check);
  }

  lemma OneBreakingRun(lib: Library, cfg: Config, steps: seq<Step>, gap: int)
    requires Breaks(lib, cfg, steps, gap)
    ensures !CapHoldsUpTo(cfg.gracePeriod, gap)
  {
  }

  lemma PastThreshold(grace: int, gap: int)
    requires gap > grace + SECOND
    ensures 11 < Threshold(11 * SECOND - 1 + gap, grace)
  {
  }

  // A one-use token validated twice in the last nanosecond before its final
  // second, charged once, swept away and charged again.
  lemma LateChargeBreaksCap(grace: int, gap: int)
    requires gap >= 0 && gap > grace + SECOND
    ensures !CapHoldsUpTo(grace, gap)
  {
    var lib, cfg, v := ANY_LIB, LaxConfig(grace), 11 * SECOND - 1;
    var req := AuthRequest("/", "GET", "", "", "", "");
    var f := NewFlight(lib, LaxToken(GENERIC), ZERO_SIGN, v);
    var check := Validate(LaxToken(GENERIC), ZERO_SIGN, "/", v);
    LaxTokenPasses(lib, grace, GENERIC);
    CheckedTwice(lib, cfg, check, gap);
    var steps := [check] + [check];
    var charge1, sweep, charge2 := Consume(0, req, "", 10, v), Sweep(v + gap), Consume(1, req, "", 10, v + gap);
    PastThreshold(grace, gap);
    assert InputOf(lib, cfg, f, charge1) == InputOf(lib, cfg, f, charge2);
    LateChargeRun(lib, cfg, steps, Run(lib, cfg, steps), f, charge1, sweep, charge2, gap);
    OneBreakingRun(lib, cfg, steps + [charge1] + [sweep] + [charge2], gap);
  }

  lemma CheckPasses(lib: Library, cfg: Config, w: World, check: Step)
    requires check.Validate?
    requires ValidateTokenForMode(lib, cfg, check.payload, check.payload.mode, check.path, check.sign, Unix(check.now)).None?
    ensures Next(lib, cfg, w, check)
         == w.(flights := w.flights + [NewFlight(lib, check.payload, check.sign, check.now)], clock := check.now)
  {
  }

  lemma LateChargeRun(lib: Library, cfg: Config, start: seq<Step>, w: World, f: Flight,
                      charge1: Step, sweep: Step, charge2: Step, gap: int)
    requires TimelyRun(lib, cfg, start, gap) && Run(lib, cfg, start) == w
    requires w.store == UsageState(false, map[]) && w.flights == [f, f] && w.charged == multiset{} && w.clock == f.validatedAt
    requires charge1.Consume? && charge1.request == 0 && charge1.now == f.validatedAt
    requires charge2.Consume? && charge2.request == 1 && charge2.now == f.validatedAt + gap && gap >= 0
    requires sweep == Sweep(f.validatedAt + gap)
    requires f.expiresAt < Threshold(sweep.now, cfg.gracePeriod)
    requires var input := InputOf(lib, cfg, f, charge1);
             input == InputOf(lib, cfg, f, charge2) && input.maxUses == 1 && !input.skipConsume && input.expiresAt == f.expiresAt
    requires cfg.maxUses == 1
    ensures Breaks(lib, cfg, start + [charge1] + [sweep] + [charge2], gap)
  {
    var input := InputOf(lib, cfg, f, charge1);
    var w1 := Charge(w, input, charge1.now);
    var w2 := w1.(store := CleanupNext(w1.store, Threshold(sweep.now, cfg.gracePeriod)), clock := sweep.now);
    var w3 := Charge(w2, input, charge2.now);
    var steps1 := start + [charge1];
    LastStep(lib, cfg, start, charge1, gap);
    assert Run(lib, cfg, steps1) == w1 && TimelyRun(lib, cfg, steps1, gap);
    var steps2 := steps1 + [sweep];
    LastStep(lib, cfg, steps1, sweep, gap);
    assert Run(lib, cfg, steps2) == w2 && TimelyRun(lib, cfg, steps2, gap);
    var steps3 := steps2 + [charge2];
    LastStep(lib, cfg, steps2, charge2, gap);
    assert Run(lib, cfg, steps3) == w3 && TimelyRun(lib, cfg, steps3, gap);
    SweptBetweenCharges(w, input, charge1.now, Threshold(sweep.now, cfg.gracePeriod), charge2.now);
    TwinsDoNotCollide(w3.flights, f);
    Overcharged(lib, cfg, steps3, input.id);
  }

  lemma TwinsDoNotCollide(fs: seq<Flight>, f: Flight)
    requires forall g :: g in fs ==> g == f
    ensures NoCollision(fs)
  {
  }

  lemma Overcharged(lib: Library, cfg: Config, steps: seq<Step>, id: string)
    requires id in Run(lib, cfg, steps).charged && Run(lib, cfg, steps).charged[id] > cfg.maxUses
    ensures !CapHolds(lib, cfg, steps)
  {
  }

  lemma LastStep(lib: Library, cfg: Config, steps: seq<Step>, step: Step, gap: int)
    ensures Run(lib, cfg, steps + [step]) == Next(lib, cfg, Run(lib, cfg, steps), step)
    ensures TimelyRun(lib, cfg, steps + [step], gap) <==> TimelyRun(lib, cfg, steps, gap) && Timely(Run(lib, cfg, steps), step, gap)
  {
    assert (steps + [step])[..|steps + [step]| - 1] == steps;
  }

  // One second beyond the grace period is exactly how long a validated
  // request may take to charge.
  lemma GapBoundIsExact(grace: int, gap: int)
    requires gap >= 0
    ensures CapHoldsUpTo(grace, gap) <==> gap <= grace + SECOND
  {
    if gap <= grace + SECOND {
      forall lib: Library, cfg: Config, steps: seq<Step> | cfg.gracePeriod == grace && Breaks(lib, cfg, steps, gap)
        ensures false
      {
        ShorterGaps(lib, cfg, steps, gap, grace + SECOND);
        QuotaHoldsOverRuns(lib, cfg, steps);
      }
    } else {
      LateChargeBreaksCap(grace, gap);
    }
  }
}
