// The use cap for the service itself: every call of Verify is a validation
// followed by at most one consume, so runs of whole requests are runs of
// module QuotaRuns, and the cap bounds what clients are admitted for.
module ServiceQuota {
  import opened Prelude
  import opened Token
  import opened UsageStores
  import opened RuleChains
  import opened Auth
  import opened QuotaRuns

  // ------------------------------------- what one request does to the store

  function UseInput(lib: Library, cfg: Config, p: TokenPayload, req: AuthRequest, token: string, sign: string, stamp: int): ConsumeInput {
    if p.mode == GENERIC then GenericInput(lib, cfg, p, req, token, sign, stamp) else BindingInput(lib, cfg, p, req, token, sign, stamp)
  }

  // One consume of a token that was found good at reading `at`.
  ghost predicate Used(lib: Library, cfg: Config, s: UsageState, s': UsageState, req: AuthRequest, token: string, sign: string,
                       clk: Readings, p: TokenPayload, at: int, stamp: int) {
    && lib.decodeToken(token) == Some(p) && (at == clk.classify || at == clk.verify) && (stamp == clk.verify || stamp == clk.charge)
    && ValidateTokenForMode(lib, cfg, p, p.mode, req.originalURI, sign, at).None?
    && s' == ConsumeNext(s, UseInput(lib, cfg, p, req, token, sign, stamp), clk.wall).1
  }

  // An answer for which a generic token pays with one use: admitted for real,
  // and not a HEAD request that goes uncounted.
  predicate Spends(cfg: Config, req: AuthRequest, res: AuthResult) {
    !cfg.dryRun && res.allowed && res.mode == GENERIC && res.signID != "" && !(req.originalMethod == "HEAD" && !cfg.countHead)
  }

  // The consume was admitted and charged under the reported id.
  ghost predicate Paid(lib: Library, cfg: Config, s: UsageState, req: AuthRequest, token: string, sign: string,
                       clk: Readings, p: TokenPayload, stamp: int, res: AuthResult) {
    var input := UseInput(lib, cfg, p, req, token, sign, stamp);
    var r := ConsumeNext(s, input, clk.wall).0;
    p.mode == GENERIC && res.signID == input.id && r.Ok? && r.value.allowed && !input.skipConsume
  }

  ghost predicate Effect(lib: Library, cfg: Config, s: UsageState, req: AuthRequest, token: string, sign: string,
                         clk: Readings, res: AuthResult, store: Store) {
    store.Some?
    && ((store.value == s && !Spends(cfg, req, res))
        || exists p, at, stamp :: Used(lib, cfg, s, store.value, req, token, sign, clk, p, at, stamp)
                                  && (Spends(cfg, req, res) ==> Paid(lib, cfg, s, req, token, sign, clk, p, stamp, res)))
  }

  lemma GenericEffect(lib: Library, cfg: Config, s: UsageState, req: AuthRequest, token: string, sign: string,
                      clk: Readings, p: TokenPayload)
    requires lib.decodeToken(token) == Some(p) && p.mode == GENERIC
    requires ValidateTokenForMode(lib, cfg, p, GENERIC, req.originalURI, sign, clk.verify).None?
    ensures var (res, store) := FinalizeGeneric(lib, cfg, Some(s), p, req, token, sign, clk);
            Effect(lib, cfg, s, req, token, sign, clk, res, store)
  {
    var (res, store) := FinalizeGeneric(lib, cfg, Some(s), p, req, token, sign, clk);
    assert Used(lib, cfg, s, store.value, req, token, sign, clk, p, clk.verify, clk.verify);
  }

  lemma BindingUse(lib: Library, cfg: Config, s: UsageState, req: AuthRequest, token: string, sign: string,
                   clk: Readings, p: TokenPayload, at: int, store: Store, res: AuthResult)
    requires lib.decodeToken(token) == Some(p) && p.mode == IP_BOUND && (at == clk.classify || at == clk.verify)
    requires ValidateTokenForMode(lib, cfg, p, IP_BOUND, req.originalURI, sign, at).None?
    requires store == BindEmptyIP(lib, cfg, Some(s), p, req, token, sign, clk).1 || store == Some(s)
    requires !Spends(cfg, req, res)
    ensures Effect(lib, cfg, s, req, token, sign, clk, res, store)
  {
    BindingEffect(lib, cfg, s, p, req, token, sign, clk);
    if store.value != s {
      assert Used(lib, cfg, s, store.value, req, token, sign, clk, p, at, clk.charge);
    }
  }

  lemma PowOnlyUses(lib: Library, cfg: Config, s: UsageState, req: AuthRequest, token: string, sign: string, clk: Readings)
    ensures var payload := Classify(lib, cfg, token, sign, req, clk.classify).payload;
            var (res, store) := VerifyPoWOnly(lib, cfg, Some(s), req, token, sign, payload, clk);
            Effect(lib, cfg, s, req, token, sign, clk, res, store)
  {
    var payload := Classify(lib, cfg, token, sign, req, clk.classify).payload;
    var (res, store) := VerifyPoWOnly(lib, cfg, Some(s), req, token, sign, payload, clk);
    if payload.Some? {
      var p := payload.value;
      assert lib.decodeToken(token) == Some(p) && token != "" && sign != "" && |token| <= cfg.maxTokenLength && |sign| <= cfg.maxSignLength;
      var reason := ValidateTokenForMode(lib, cfg, p, p.mode, req.originalURI, sign, clk.verify);
      if reason.Some? {
        PowOnlyRefuses(lib, cfg, Some(s), req, token, sign, p, reason.value, clk);
      } else {
        PowOnlyFinalizes(lib, cfg, Some(s), req, token, sign, p, clk);
        if p.mode == GENERIC {
          GenericEffect(lib, cfg, s, req, token, sign, clk, p);
        } else {
          IPBoundNeverSpends(lib, cfg, s, p, req, token, sign, clk);
          BindingUse(lib, cfg, s, req, token, sign, clk, p, clk.verify, store, res);
        }
      }
    }
  }

  lemma IPBoundNeverSpends(lib: Library, cfg: Config, s: UsageState, p: TokenPayload, req: AuthRequest,
                           token: string, sign: string, clk: Readings)
    ensures var (res, store) := FinalizeIPBound(lib, cfg, Some(s), p, req, token, sign, clk);
            !Spends(cfg, req, res) && (store == BindEmptyIP(lib, cfg, Some(s), p, req, token, sign, clk).1 || store == Some(s))
  {
  }

  lemma GenericChargeUses(lib: Library, cfg: Config, s: UsageState, req: AuthRequest, token: string, sign: string, clk: Readings,
                          c: Classification, res: AuthResult)
    requires c.status.Valid? && c.mode == GENERIC && c.payload.Some? && c.payload.value.mode == GENERIC
    requires lib.decodeToken(token) == c.payload
    requires ValidateTokenForMode(lib, cfg, c.payload.value, GENERIC, req.originalURI, sign, clk.classify).None?
    requires match ChargeForRiskAllow(lib, cfg, Some(s), c, req, token, sign, clk).0
             case Ok(charge) => res.signID == charge.signID && res.mode == c.mode
             case Err(denial) => res == denial
    ensures Effect(lib, cfg, s, req, token, sign, clk, res, ChargeForRiskAllow(lib, cfg, Some(s), c, req, token, sign, clk).1)
  {
    var p, store := c.payload.value, ChargeForRiskAllow(lib, cfg, Some(s), c, req, token, sign, clk).1;
    assert Used(lib, cfg, s, store.value, req, token, sign, clk, p, clk.classify, clk.charge);
    assert Spends(cfg, req, res) ==> Paid(lib, cfg, s, req, token, sign, clk, p, clk.charge, res);
  }

  lemma ChargeUses(lib: Library, cfg: Config, s: UsageState, req: AuthRequest, token: string, sign: string, clk: Readings,
                   c: Classification, res: AuthResult)
    requires c == Classify(lib, cfg, token, sign, req, clk.classify)
    requires match ChargeForRiskAllow(lib, cfg, Some(s), c, req, token, sign, clk).0
             case Ok(charge) => res.signID == charge.signID && res.mode == c.mode
             case Err(denial) => res == denial
    ensures Effect(lib, cfg, s, req, token, sign, clk, res, ChargeForRiskAllow(lib, cfg, Some(s), c, req, token, sign, clk).1)
  {
    var (charge, store) := ChargeForRiskAllow(lib, cfg, Some(s), c, req, token, sign, clk);
    ClassifiedModes(lib, cfg, token, sign, req, clk.classify);
    if c.status.Valid? {
      ClassifiedValid(lib, cfg, req, token, sign, clk.classify);
      var p := c.payload.value;
      assert lib.decodeToken(token) == Some(p);
      if c.mode == GENERIC {
        GenericChargeUses(lib, cfg, s, req, token, sign, clk, c, res);
      } else {
        BindingEffect(lib, cfg, s, p, req, token, sign, clk);
        BindingUse(lib, cfg, s, req, token, sign, clk, p, clk.classify, store, res);
      }
    }
  }

  lemma RiskUses(w: Wiring, cfg: Config, s: UsageState, d: Decision, trace: seq<TraceStep>, marks: seq<string>,
                 c: Classification, req: AuthRequest, token: string, sign: string, clk: Readings)
    requires c == Classify(w.lib, cfg, token, sign, req, clk.classify)
    ensures var (res, store) := ActOnDecision(w, cfg, Some(s), d, trace, marks, c, req, token, sign, clk);
            if res.Some? then Effect(w.lib, cfg, s, req, token, sign, clk, res.value, store) else store == Some(s)
  {
    var (res, store) := ActOnDecision(w, cfg, Some(s), d, trace, marks, c, req, token, sign, clk);
    if d.target.Accept? || d.target.RateLimit? || (d.target.RequirePow? && c.status.Valid?) {
      ChargeUses(w.lib, cfg, s, req, token, sign, clk, c, res.value);
    }
  }

  // Whatever the clock does within a request, Verify leaves the store alone
  // or performs one consume of a token it found good at one of its readings;
  // an answer that spends a use has been charged one.
  lemma VerifyUsesValidated(w: Wiring, cfg: Config, s: UsageState, req: AuthRequest, counters: string -> int, blocked: bool, clk: Readings)
    ensures var (token, sign) := w.extract(req.originalArgs);
            var (res, store) := Verify(w, cfg, Some(s), req, counters, blocked, clk);
            Effect(w.lib, cfg, s, req, token, sign, clk, res, store)
  {
    if cfg.bypassAll || req.originalURI == "" || blocked {
    } else if cfg.powEnabled {
      ClassifiedUses(w, cfg, s, req, counters, clk);
    } else {
      WithoutPowUses(w, cfg, s, req, counters, clk);
    }
  }

  lemma ClassifiedUses(w: Wiring, cfg: Config, s: UsageState, req: AuthRequest, counters: string -> int, clk: Readings)
    ensures var (token, sign) := w.extract(req.originalArgs);
            var c := Classify(w.lib, cfg, token, sign, req, clk.classify);
            var (res, store) := VerifyClassified(w, cfg, Some(s), req, token, sign, c, counters, clk);
            Effect(w.lib, cfg, s, req, token, sign, clk, res, store)
  {
    var (token, sign) := w.extract(req.originalArgs);
    var c := Classify(w.lib, cfg, token, sign, req, clk.classify);
    PowOnlyUses(w.lib, cfg, s, req, token, sign, clk);
    if w.engine.Some? {
      var (out, st) := Evaluate(w.engine.value, "INPUT", RiskContext(w, req, token, sign, c, counters));
      if out.Decided? { RiskUses(w, cfg, s, out.decision, st.trace, st.marks, c, req, token, sign, clk); }
    }
  }

  lemma WithoutPowUses(w: Wiring, cfg: Config, s: UsageState, req: AuthRequest, counters: string -> int, clk: Readings)
    ensures var (token, sign) := w.extract(req.originalArgs);
            var (res, store) := VerifyWithoutPow(w, cfg, Some(s), req, counters, clk);
            Effect(w.lib, cfg, s, req, token, sign, clk, res, store)
  {
  }

  // ----------------------------------------------------- runs of requests

  // A request and the instants of its clock readings, in nanoseconds.
  datatype Event =
    | Request(req: AuthRequest, counters: string -> int, blocked: bool, classifyAt: int, verifyAt: int, chargeAt: int)
    | Cleanup(now: int)

  // `spent` counts the answers that cost a use, per reported sign id.
  datatype Site = Site(store: UsageState, flights: seq<Flight>, spent: multiset<string>, clock: int)

  const OPENING := Site(UsageState(false, map[]), [], multiset{}, 0)

  function ClockOf(e: Event): Readings
    requires e.Request?
  {
    Readings(Unix(e.classifyAt), Unix(e.verifyAt), Unix(e.chargeAt), Unix(e.chargeAt))
  }

  ghost predicate Accepted(w: Wiring, cfg: Config, e: Event, p: TokenPayload)
    requires e.Request?
  {
    var (token, sign) := w.extract(e.req.originalArgs);
    && w.lib.decodeToken(token) == Some(p)
    && (ValidateTokenForMode(w.lib, cfg, p, p.mode, e.req.originalURI, sign, Unix(e.classifyAt)).None?
        || ValidateTokenForMode(w.lib, cfg, p, p.mode, e.req.originalURI, sign, Unix(e.verifyAt)).None?)
  }

  ghost function PresentedBy(w: Wiring, cfg: Config, e: Event): seq<Flight>
    requires e.Request?
  {
    var (token, sign) := w.extract(e.req.originalArgs);
    match w.lib.decodeToken(token)
    case Some(p) => if Accepted(w, cfg, e, p) then [NewFlight(w.lib, p, sign, e.classifyAt)] else []
    case None => []
  }

  ghost function After(w: Wiring, cfg: Config, s: Site, e: Event): Site {
    match e
    case Cleanup(now) => s.(store := CleanupNext(s.store, Threshold(now, cfg.gracePeriod)), clock := now)
    case Request(req, counters, blocked, _, _, chargeAt) =>
      var (res, store) := Verify(w, cfg, Some(s.store), req, counters, blocked, ClockOf(e));
      Site(if store.Some? then store.value else s.store, s.flights + PresentedBy(w, cfg, e),
           if Spends(cfg, req, res) then s.spent + multiset{res.signID} else s.spent, chargeAt)
  }

  ghost function History(w: Wiring, cfg: Config, events: seq<Event>): Site {
    if events == [] then OPENING else After(w, cfg, History(w, cfg, events[..|events| - 1]), events[|events| - 1])
  }

  // Requests follow one another, each taking at most `gap` from its first
  // reading to its charge.
  ghost predicate Prompt(s: Site, e: Event, gap: int) {
    match e
    case Cleanup(now) => s.clock <= now
    case Request(_, _, _, classifyAt, verifyAt, chargeAt) =>
      s.clock <= classifyAt <= verifyAt <= chargeAt && chargeAt - classifyAt <= gap
  }

  ghost predicate PromptRun(w: Wiring, cfg: Config, events: seq<Event>, gap: int) {
    events != [] ==>
      PromptRun(w, cfg, events[..|events| - 1], gap) && Prompt(History(w, cfg, events[..|events| - 1]), events[|events| - 1], gap)
  }

  // ------------------------------------------------------------ simulation

  ghost predicate SameToken(f: Flight, g: Flight) {
    f.id == g.id && f.payload == g.payload && f.sign == g.sign
  }

  ghost predicate Presented(f: Flight, gs: seq<Flight>) {
    exists j :: 0 <= j < |gs| && SameToken(f, gs[j])
  }

  ghost predicate Covered(fs: seq<Flight>, gs: seq<Flight>) {
    forall i :: 0 <= i < |fs| ==> Presented(fs[i], gs)
  }

  ghost predicate Matches(s: Site, r: World) {
    && r.store == s.store && r.clock <= s.clock && Covered(r.flights, s.flights)
    && forall id :: s.spent[id] <= r.charged[id]
  }

  ghost predicate Simulates(lib: Library, cfg: Config, steps: seq<Step>, s: Site, gap: int) {
    TimelyRun(lib, cfg, steps, gap) && Matches(s, Run(lib, cfg, steps))
  }

  lemma PresentedStill(f: Flight, gs: seq<Flight>, more: seq<Flight>)
    requires Presented(f, gs) || Presented(f, more)
    ensures Presented(f, gs + more)
  {
    if Presented(f, gs) {
      var j :| 0 <= j < |gs| && SameToken(f, gs[j]);
      assert SameToken(f, (gs + more)[j]);
    } else {
      var j :| 0 <= j < |more| && SameToken(f, more[j]);
      assert SameToken(f, (gs + more)[|gs| + j]);
    }
  }

  lemma CoveredStill(fs: seq<Flight>, gs: seq<Flight>, more: seq<Flight>)
    requires Covered(fs, gs)
    ensures Covered(fs, gs + more)
  {
    forall i | 0 <= i < |fs| ensures Presented(fs[i], gs + more) { PresentedStill(fs[i], gs, more); }
  }

  lemma CoveredMore(fs: seq<Flight>, gs: seq<Flight>, f: Flight, more: seq<Flight>)
    requires Covered(fs, gs) && Presented(f, more)
    ensures Covered(fs + [f], gs + more)
  {
    CoveredStill(fs, gs, more);
    PresentedStill(f, gs, more);
  }

  // A validation followed by its consume.
  lemma TwoSteps(lib: Library, cfg: Config, steps: seq<Step>, p: TokenPayload, sign: string, req: AuthRequest, token: string,
                 t: int, stamp: int, end: int, gap: int) returns (more: seq<Step>)
    requires TimelyRun(lib, cfg, steps, gap) && Run(lib, cfg, steps).clock <= t <= end && end - t <= gap
    requires ValidateTokenForMode(lib, cfg, p, p.mode, req.originalURI, sign, Unix(t)).None?
    ensures TimelyRun(lib, cfg, more, gap)
    ensures var r, f := Run(lib, cfg, steps), NewFlight(lib, p, sign, t);
            Run(lib, cfg, more) == QuotaRuns.Charge(r.(flights := r.flights + [f], clock := t), UseInput(lib, cfg, p, req, token, sign, stamp), end)
  {
    var r := Run(lib, cfg, steps);
    var check, f := Validate(p, sign, req.originalURI, t), NewFlight(lib, p, sign, t);
    var use := Consume(|r.flights|, req, token, stamp, end);
    LastStep(lib, cfg, steps, check, gap);
    CheckPasses(lib, cfg, r, check);
    LastStep(lib, cfg, steps + [check], use, gap);
    more := steps + [check] + [use];
  }

  lemma PresentedNow(w: Wiring, cfg: Config, e: Event, p: TokenPayload, t: int)
    requires e.Request? && Accepted(w, cfg, e, p)
    ensures Presented(NewFlight(w.lib, p, w.extract(e.req.originalArgs).1, t), PresentedBy(w, cfg, e))
  {
    var sign := w.extract(e.req.originalArgs).1;
    assert SameToken(NewFlight(w.lib, p, sign, t), PresentedBy(w, cfg, e)[0]);
  }

  // The validation and the consume that make up one request.
  lemma UseIsTwoSteps(w: Wiring, cfg: Config, steps: seq<Step>, s: Site, e: Event, gap: int, p: TokenPayload, at: int, stamp: int)
    returns (more: seq<Step>)
    requires e.Request? && Prompt(s, e, gap) && Simulates(w.lib, cfg, steps, s, gap)
    requires var (token, sign) := w.extract(e.req.originalArgs);
             var (res, store) := Verify(w, cfg, Some(s.store), e.req, e.counters, e.blocked, ClockOf(e));
             && store.Some? && Used(w.lib, cfg, s.store, store.value, e.req, token, sign, ClockOf(e), p, at, stamp)
             && (Spends(cfg, e.req, res) ==> Paid(w.lib, cfg, s.store, e.req, token, sign, ClockOf(e), p, stamp, res))
    ensures Simulates(w.lib, cfg, more, After(w, cfg, s, e), gap)
  {
    var (token, sign) := w.extract(e.req.originalArgs);
    var r := Run(w.lib, cfg, steps);
    var t := if at == Unix(e.classifyAt) then e.classifyAt else e.verifyAt;
    more := TwoSteps(w.lib, cfg, steps, p, sign, e.req, token, t, stamp, e.chargeAt, gap);
    var f := NewFlight(w.lib, p, sign, t);
    PresentedNow(w, cfg, e, p, t);
    CoveredMore(r.flights, s.flights, f, PresentedBy(w, cfg, e));
  }

  lemma EventIsSteps(w: Wiring, cfg: Config, steps: seq<Step>, s: Site, e: Event, gap: int) returns (more: seq<Step>)
    requires Prompt(s, e, gap) && Simulates(w.lib, cfg, steps, s, gap)
    ensures Simulates(w.lib, cfg, more, After(w, cfg, s, e), gap)
  {
    if e.Cleanup? {
      LastStep(w.lib, cfg, steps, Sweep(e.now), gap);
      more := steps + [Sweep(e.now)];
    } else {
      var (token, sign) := w.extract(e.req.originalArgs);
      var clk := ClockOf(e);
      var (res, store) := Verify(w, cfg, Some(s.store), e.req, e.counters, e.blocked, clk);
      VerifyUsesValidated(w, cfg, s.store, e.req, e.counters, e.blocked, clk);
      if store.value == s.store && !Spends(cfg, e.req, res) {
        more := steps;
        CoveredStill(Run(w.lib, cfg, steps).flights, s.flights, PresentedBy(w, cfg, e));
      } else {
        var p, at, stamp :| Used(w.lib, cfg, s.store, store.value, e.req, token, sign, clk, p, at, stamp)
                            && (Spends(cfg, e.req, res) ==> Paid(w.lib, cfg, s.store, e.req, token, sign, clk, p, stamp, res));
        more := UseIsTwoSteps(w, cfg, steps, s, e, gap, p, at, stamp);
      }
    }
  }

  lemma {:induction false} HistoryIsRun(w: Wiring, cfg: Config, events: seq<Event>, gap: int) returns (steps: seq<Step>)
    requires PromptRun(w, cfg, events, gap)
    ensures Simulates(w.lib, cfg, steps, History(w, cfg, events), gap)
  {
    if events == [] {
      steps := [];
    } else {
      var earlier := HistoryIsRun(w, cfg, events[..|events| - 1], gap);
      steps := EventIsSteps(w, cfg, earlier, History(w, cfg, events[..|events| - 1]), events[|events| - 1], gap);
    }
  }

  lemma CoveredCannotCollide(fs: seq<Flight>, gs: seq<Flight>)
    requires Covered(fs, gs) && NoCollision(gs)
    ensures NoCollision(fs)
  {
    forall f, g | f in fs && g in fs && f.id == g.id
      ensures SignIDPreimage(f.payload, f.sign, f.payload.mode) == SignIDPreimage(g.payload, g.sign, g.payload.mode)
    {
      var i :| 0 <= i < |fs| && fs[i] == f;
      var j :| 0 <= j < |fs| && fs[j] == g;
      assert Presented(fs[i], gs) && Presented(fs[j], gs);
      var k :| 0 <= k < |gs| && SameToken(fs[i], gs[k]);
      var l :| 0 <= l < |gs| && SameToken(fs[j], gs[l]);
      assert gs[k] in gs && gs[l] in gs;
    }
  }

  // Over any run of requests and cleanups in which no request takes longer
  // than the grace period plus one second, no sign id is ever answered with
  // more than max_uses admissions that cost a use, on whatever path.
  lemma AdmissionsStayWithinCap(w: Wiring, cfg: Config, events: seq<Event>)
    requires PromptRun(w, cfg, events, cfg.gracePeriod + SECOND)
    requires NoCollision(History(w, cfg, events).flights)
    ensures forall id :: id in History(w, cfg, events).spent ==> History(w, cfg, events).spent[id] <= cfg.maxUses
  {
    var spent := History(w, cfg, events).spent;
    var steps := HistoryIsRun(w, cfg, events, cfg.gracePeriod + SECOND);
    var r := Run(w.lib, cfg, steps);
    CoveredCannotCollide(r.flights, History(w, cfg, events).flights);
    QuotaHoldsOverRuns(w.lib, cfg, steps);
    forall id | id in spent ensures spent[id] <= cfg.maxUses {
      assert r.charged[id] >= spent[id] > 0;
      assert id in r.charged;
    }
  }
}
