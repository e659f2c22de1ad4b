// The authorisation service on real stores (internal/auth/service.go and
// pow_verify.go): each method performs its steps on the usage store, the
// counters and the pending limiter, and is proved to compute exactly what
// module Auth specifies.
module Service {
  import opened Prelude
  import opened Token
  import opened UsageStores
  import opened RuleChains
  import opened Auth
  import CounterStores
  import Counting
  import PendingLimiter
  import Difficulty

  // Clock readings of one request: the seconds the verdict depends on, and
  // the instants used by the limiter and the counters.
  datatype Clock = Clock(unix: Readings, enter: int, evaluate: CounterStores.Instant, count: CounterStores.Instant, leave: int)

  // Per-request state shared by the steps of one verification.
  class VerifyCtx {
    var payload: Option<TokenPayload>
    var charge: Charge

    constructor (payload: Option<TokenPayload>)
      ensures this.payload == payload && charge == NO_CHARGE
    {
      this.payload, charge := payload, NO_CHARGE;
    }
  }

  class AuthService {
    const cfg: Config
    const wiring: Wiring
    const definitions: Counting.Definitions
    const usage: MemoryStore?
    const counters: CounterStores.CounterStore?
    const blocker: PendingLimiter.IPPendingBlocker?

    constructor (cfg: Config, wiring: Wiring, definitions: Counting.Definitions, usage: MemoryStore?,
                 counters: CounterStores.CounterStore?, blocker: PendingLimiter.IPPendingBlocker?)
      requires usage != null ==> usage.Valid()
      requires counters != null ==> counters.Valid()
      requires wiring.engine.Some? ==> DistinctUpToCase(wiring.engine.value)
      requires usage != null && counters != null ==> usage.Repr !! counters.Repr
      requires blocker != null ==> (usage != null ==> blocker !in usage.Repr) && (counters != null ==> blocker !in counters.Repr)
      ensures Valid()
      ensures this.cfg == cfg && this.wiring == wiring && this.definitions == definitions
      ensures this.usage == usage && this.counters == counters && this.blocker == blocker
    {
      this.cfg, this.wiring, this.definitions := cfg, wiring, definitions;
      this.usage, this.counters, this.blocker := usage, counters, blocker;
    }

    ghost function UsageObjects(): set<object>
      reads usage
    {
      if usage == null then {} else usage.Repr
    }

    ghost function CounterObjects(): set<object>
      reads counters
    {
      if counters == null then {} else counters.Repr
    }

    ghost predicate UsageValid()
      reads usage, UsageObjects()
    {
      usage != null ==> usage.Valid()
    }

    ghost predicate CountersValid()
      reads counters, CounterObjects()
    {
      counters != null ==> counters.Valid()
    }

    ghost predicate Valid()
      reads usage, UsageObjects(), counters, CounterObjects()
    {
      && UsageValid() && CountersValid()
      && UsageObjects() !! CounterObjects()
      && (blocker != null ==> blocker !in UsageObjects() && blocker !in CounterObjects())
      && (wiring.engine.Some? ==> DistinctUpToCase(wiring.engine.value))
    }

    ghost function UsageView(): Store
      requires UsageValid()
      reads usage, UsageObjects()
    {
      if usage == null then None else Some(usage.State())
    }

    ghost function CounterView(): Option<CounterStores.CounterState>
      requires CountersValid()
      reads counters, CounterObjects()
    {
      if counters == null then None else Some(counters.State())
    }

    ghost function BlockerView(): Option<PendingLimiter.Limiter>
      reads blocker
    {
      if blocker == null then None else Some(blocker.State())
    }

    // -------------------------------------------------- checking a token

    method CheckSignAndDifficulty(p: TokenPayload, sign: string) returns (r: Option<Reason>)
      ensures r == Auth.CheckSignAndDifficulty(wiring.lib, p, sign)
    {
      if !IsValidSignHex(sign) { return Some(Reason.InvalidSignFormat); }
      var canonical := BuildCanonicalInput(p);
      if !CompareSign(wiring.lib, wiring.lib.sha256Hex(canonical), sign) { return Some(Reason.SignMismatch); }
      var met := Difficulty.HasLeadingZeroBits(wiring.lib.sha256(canonical), p.difficulty);
      if !met { return Some(Reason.DifficultyNotMet); }
      return None;
    }

    method ValidateTokenForMode(p: TokenPayload, mode: string, path: string, sign: string, now: int) returns (r: Option<Reason>)
      ensures r == Auth.ValidateTokenForMode(wiring.lib, cfg, p, mode, path, sign, now)
    {
      var mc := ModeConfigFor(cfg, mode);
      if mc.None? { return Some(Reason.UnsupportedMode); }
      if !mc.value.enabled { return Some(Reason.ModeDisabled); }
      var err := ValidatePayload(wiring.lib, p, Some(mc.value.opts));
      if err.Some? { return Some(ReasonFromValidationError(err.value)); }
      if p.path != path { return Some(Reason.PathMismatch); }
      var late := CheckTime(p, mc.value.maxTTL, now);
      if late.Some? { return late; }
      r := CheckSignAndDifficulty(p, sign);
    }

    method ClassifyPoW(token: string, sign: string, path: string, realIP: string, now: int) returns (c: Classification)
      ensures c == Auth.ClassifyPoW(wiring.lib, cfg, token, sign, path, realIP, now)
    {
      if |token| > cfg.maxTokenLength || |sign| > cfg.maxSignLength { return Classification(None, PowStatus.Invalid, ""); }
      var decoded := wiring.lib.decodeToken(token);
      if decoded.None? { return Classification(None, PowStatus.Invalid, ""); }
      var p := decoded.value;
      var bad := ValidateTokenForMode(p, p.mode, path, sign, now);
      if bad.Some? { return Classification(Some(p), StatusForValidationReason(bad.value), p.mode); }
      if p.mode == IP_BOUND {
        if realIP == "" { return Classification(Some(p), PowStatus.Unverifiable, p.mode); }
        if p.ip != "" && !SameIP(wiring.lib, p.ip, realIP) { return Classification(Some(p), PowStatus.Invalid, p.mode); }
      }
      return Classification(Some(p), PowStatus.Valid, p.mode);
    }

    // ---------------------------------------------------- using up a token

    method ConsumeGenericQuota(p: TokenPayload, req: AuthRequest, token: string, sign: string, now: int, wall: int)
      returns (cr: Option<ConsumeResult>)
      requires Valid()
      modifies UsageObjects()
      ensures Valid() && fresh(UsageObjects() - old(UsageObjects()))
      ensures (cr, UsageView()) == Auth.ConsumeGenericQuota(wiring.lib, cfg, old(UsageView()), p, req, token, sign, now, wall)
    {
      if usage == null { return None; }
      var r := usage.Consume(GenericInput(wiring.lib, cfg, p, req, token, sign, now), wall);
      if r.Err? { return None; }
      return Some(r.value);
    }

    // Fills the payload's IP in place, then looks the binding up.
    method BindEmptyIPFirstUse(ctx: VerifyCtx, p: TokenPayload, req: AuthRequest, token: string, sign: string, clk: Readings)
      returns (denial: Option<AuthResult>)
      requires Valid() && ctx !in UsageObjects() + CounterObjects()
      modifies UsageObjects(), ctx`payload
      ensures Valid() && fresh(UsageObjects() - old(UsageObjects())) && ctx !in UsageObjects() + CounterObjects()
      ensures (denial, UsageView()) == BindEmptyIP(wiring.lib, cfg, old(UsageView()), p, req, token, sign, clk)
      ensures ctx.payload == Some(p.(ip := req.realIP))
    {
      ctx.payload := Some(p.(ip := req.realIP));
      denial := CheckBinding(p, req, token, sign, clk);
    }

    // Get and Consume are two separate store calls.
    method CheckBinding(p: TokenPayload, req: AuthRequest, token: string, sign: string, clk: Readings)
      returns (denial: Option<AuthResult>)
      requires Valid()
      modifies UsageObjects()
      ensures Valid() && fresh(UsageObjects() - old(UsageObjects()))
      ensures (denial, UsageView()) == BindEmptyIP(wiring.lib, cfg, old(UsageView()), p, req, token, sign, clk)
    {
      if usage == null { return None; }
      var found := usage.Get(ComputeSignID(wiring.lib, p, sign, IP_BOUND));
      if found.Err? {
        denial := BindFirst(found.error, p, req, token, sign, clk);
        return;
      }
      FoundBinding(usage.State(), found.value, p, req, token, sign, clk);
      if found.value.firstIP != "" && !SameIP(wiring.lib, found.value.firstIP, req.realIP) {
        return Some(MaybeDryRun(cfg, DenyMode(Reason.IPMismatch, IP_BOUND)));
      }
      return None;
    }

    lemma FoundBinding(s: UsageState, rec: UsageRecord, p: TokenPayload, req: AuthRequest, token: string, sign: string, clk: Readings)
      requires Lookup(s, ComputeSignID(wiring.lib, p, sign, IP_BOUND)) == Ok(rec)
      ensures BindEmptyIP(wiring.lib, cfg, Some(s), p, req, token, sign, clk)
           == (if rec.firstIP != "" && !SameIP(wiring.lib, rec.firstIP, req.realIP)
               then Some(MaybeDryRun(cfg, DenyMode(Reason.IPMismatch, IP_BOUND))) else None,
               Some(s))
    {
    }

    // No usable record: this request binds the token, unless the store fails.
    method BindFirst(error: StoreError, p: TokenPayload, req: AuthRequest, token: string, sign: string, clk: Readings)
      returns (denial: Option<AuthResult>)
      requires Valid() && usage != null && Lookup(usage.State(), ComputeSignID(wiring.lib, p, sign, IP_BOUND)) == Err(error)
      modifies UsageObjects()
      ensures Valid() && fresh(UsageObjects() - old(UsageObjects()))
      ensures (denial, UsageView()) == BindEmptyIP(wiring.lib, cfg, old(UsageView()), p, req, token, sign, clk)
    {
      var failed := true;
      if error.NotFound? { failed := RecordBinding(p, req, token, sign, clk); }
      if !failed { return None; }
      return Some(MaybeDryRun(cfg, DenyStatus(500, Reason.StorageError, IP_BOUND)
                                   .(signID := ComputeSignID(wiring.lib, p, sign, IP_BOUND))));
    }

    method RecordBinding(p: TokenPayload, req: AuthRequest, token: string, sign: string, clk: Readings) returns (failed: bool)
      requires Valid() && usage != null
      modifies UsageObjects()
      ensures Valid() && fresh(UsageObjects() - old(UsageObjects()))
      ensures var (r, s) := ConsumeNext(old(usage.State()), BindingInput(wiring.lib, cfg, p, req, token, sign, clk.charge), clk.wall);
              failed == r.Err? && usage.State() == s
    {
      var r := usage.Consume(BindingInput(wiring.lib, cfg, p, req, token, sign, clk.charge), clk.wall);
      return r.Err?;
    }

    method FinalizeIPBound(ctx: VerifyCtx, p: TokenPayload, req: AuthRequest, token: string, sign: string, clk: Readings)
      returns (res: AuthResult)
      requires Valid() && ctx !in UsageObjects() + CounterObjects() && ctx.payload == Some(p)
      modifies UsageObjects(), ctx`payload
      ensures Valid() && fresh(UsageObjects() - old(UsageObjects())) && ctx !in UsageObjects() + CounterObjects()
      ensures (res, UsageView()) == Auth.FinalizeIPBound(wiring.lib, cfg, old(UsageView()), p, req, token, sign, clk)
    {
      if req.realIP == "" { return DenyStatus(500, Reason.MissingRealIP, IP_BOUND); }
      if p.ip == "" {
        var denial := BindEmptyIPFirstUse(ctx, p, req, token, sign, clk);
        if denial.Some? { return denial.value; }
      } else if !SameIP(wiring.lib, p.ip, req.realIP) {
        return MaybeDryRun(cfg, DenyMode(Reason.IPMismatch, IP_BOUND));
      }
      return Allow(Reason.IPBoundValid, IP_BOUND).(signID := ComputeSignID(wiring.lib, ctx.payload.value, sign, IP_BOUND));
    }

    method FinalizeGeneric(p: TokenPayload, req: AuthRequest, token: string, sign: string, clk: Readings) returns (res: AuthResult)
      requires Valid()
      modifies UsageObjects()
      ensures Valid() && fresh(UsageObjects() - old(UsageObjects()))
      ensures (res, UsageView()) == Auth.FinalizeGeneric(wiring.lib, cfg, old(UsageView()), p, req, token, sign, clk)
    {
      var signID := ComputeSignID(wiring.lib, p, sign, GENERIC);
      var cr := ConsumeGenericQuota(p, req, token, sign, clk.verify, clk.wall);
      if cr.None? { return MaybeDryRun(cfg, DenyStatus(500, Reason.StorageError, GENERIC).(signID := signID)); }
      var uses, maxUses := cr.value.uses, cr.value.maxUses;
      if !cr.value.allowed {
        return MaybeDryRun(cfg, DenyMode(Reason.UsedUp, GENERIC).(signID := signID, uses := uses, maxUses := maxUses));
      }
      return Allow(Reason.GenericValid, GENERIC).(signID := signID, uses := uses, maxUses := maxUses);
    }

    method VerifyPoWOnly(ctx: VerifyCtx, req: AuthRequest, token: string, sign: string, clk: Readings) returns (res: AuthResult)
      requires Valid() && ctx !in UsageObjects() + CounterObjects()
      modifies UsageObjects(), ctx`payload
      ensures Valid() && fresh(UsageObjects() - old(UsageObjects())) && ctx !in UsageObjects() + CounterObjects()
      ensures (res, UsageView()) == Auth.VerifyPoWOnly(wiring.lib, cfg, old(UsageView()), req, token, sign, old(ctx.payload), clk)
    {
      if token == "" || sign == "" { return MaybeDryRun(cfg, DenyMode(Reason.MissingTokenOrSign, "")); }
      if |token| > cfg.maxTokenLength { return MaybeDryRun(cfg, DenyMode(Reason.TokenTooLong, "")); }
      if |sign| > cfg.maxSignLength { return MaybeDryRun(cfg, DenyMode(Reason.SignTooLong, "")); }
      if ctx.payload.None? { return MaybeDryRun(cfg, DenyMode(Reason.MalformedToken, "")); }
      var p := ctx.payload.value;
      var bad := ValidateTokenForMode(p, p.mode, req.originalURI, sign, clk.verify);
      if bad.Some? { return MaybeDryRun(cfg, DenyMode(bad.value, p.mode)); }
      if p.mode == IP_BOUND {
        res := FinalizeIPBound(ctx, p, req, token, sign, clk);
      } else {
        res := FinalizeGeneric(p, req, token, sign, clk);
      }
    }

    // ----------------------------------------------------- the risk engine

    // A denial to return, or what was charged, noted in the context.
    method ChargeQuotaForRiskAllow(ctx: VerifyCtx, c: Classification, req: AuthRequest, token: string, sign: string, clk: Readings)
      returns (denial: Option<AuthResult>)
      requires Valid() && ctx !in UsageObjects() + CounterObjects() && ctx.payload == c.payload && ctx.charge == NO_CHARGE
      modifies UsageObjects(), ctx
      ensures Valid() && fresh(UsageObjects() - old(UsageObjects())) && ctx !in UsageObjects() + CounterObjects()
      ensures (if denial.Some? then Err(denial.value) else Ok(ctx.charge), UsageView())
           == ChargeForRiskAllow(wiring.lib, cfg, old(UsageView()), c, req, token, sign, clk)
    {
      if !c.status.Valid? || ctx.payload.None? { return None; }
      var p := ctx.payload.value;
      if c.mode == GENERIC {
        var signID := ComputeSignID(wiring.lib, p, sign, GENERIC);
        var cr := ConsumeGenericQuota(p, req, token, sign, clk.charge, clk.wall);
        if cr.None? { return Some(DenyStatus(500, Reason.StorageError, GENERIC).(signID := signID)); }
        var uses, maxUses := cr.value.uses, cr.value.maxUses;
        if !cr.value.allowed {
          return Some(MaybeDryRun(cfg, DenyMode(Reason.UsedUp, GENERIC).(signID := signID, uses := uses, maxUses := maxUses)));
        }
        ctx.charge := Charge(signID, uses, maxUses);
        return None;
      }
      if c.mode == IP_BOUND && p.ip == "" {
        denial := BindEmptyIPFirstUse(ctx, p, req, token, sign, clk);
        return denial;
      }
      return None;
    }

    method ActOn(ctx: VerifyCtx, d: Decision, trace: seq<TraceStep>, marks: seq<string>, c: Classification, req: AuthRequest,
                 token: string, sign: string, clk: Readings) returns (res: Option<AuthResult>)
      requires Valid() && ctx !in UsageObjects() + CounterObjects() && ctx.payload == c.payload && ctx.charge == NO_CHARGE
      modifies UsageObjects(), ctx
      ensures Valid() && fresh(UsageObjects() - old(UsageObjects())) && ctx !in UsageObjects() + CounterObjects()
      ensures (res, UsageView()) == ActOnDecision(wiring, cfg, old(UsageView()), d, trace, marks, c, req, token, sign, clk)
      ensures res.None? ==> ctx.payload == old(ctx.payload)
    {
      match d.target {
        case Accept | RateLimit =>
          var denial := ChargeQuotaForRiskAllow(ctx, c, req, token, sign, clk);
          if denial.Some? { return denial; }
          var ok := WithCharge(WithRisk(Allow(RuleReason(d.reason, RiskAccept), c.mode), d, trace, marks), ctx.charge).(limitRate := d.limitRate);
          return Some(ok.(decision := DecideForAllow(ok)));
        case Reject => return Some(WithRisk(DenyMode(RuleReason(d.reason, RiskReject), c.mode), d, trace, marks));
        case TooMany => return Some(WithRisk(DenyStatus(429, RuleReason(d.reason, RateLimited), c.mode), d, trace, marks));
        case RequirePow =>
          match c.status {
            case Valid =>
              var denial := ChargeQuotaForRiskAllow(ctx, c, req, token, sign, clk);
              if denial.Some? { return denial; }
              return Some(WithCharge(Allow(Reason.RequirePowPass, c.mode), ctx.charge));
            case Missing => return Some(DenyMode(Reason.MissingTokenOrSign, ""));
            case Unverifiable => return Some(DenyStatus(500, Reason.MissingRealIP, c.mode));
            case _ => return Some(DenyMode(PowStatusToReason(c.status), c.mode));
          }
        case _ => return None;
      }
    }

    // What the counter resolver answers during one evaluation: every
    // configured counter read once through the cache, any other name 0.
    method SnapshotCounters(req: RequestContext, now: CounterStores.Instant) returns (snapshot: string -> int)
      requires Valid()
      ensures forall name :: snapshot(name) == CounterValue(CounterView(), definitions, req, name, now)
    {
      if counters == null { return (_: string) => 0; }
      var resolver := new Counting.CachingResolver(definitions, req, counters);
      var values: map<string, int> := map[];
      var todo := definitions.Keys;
      while todo != {}
        invariant todo <= definitions.Keys && Valid() && counters.State() == old(counters.State())
        invariant resolver.defs == definitions && resolver.req == req && resolver.store == counters
        invariant fresh(resolver)
        invariant values.Keys == definitions.Keys - todo && resolver.cache.Keys <= values.Keys
        invariant forall name :: name in values ==> values[name] == Counting.Resolve(definitions, counters.State(), req, name, now)
        decreases todo
      {
        var name :| name in todo;
        var v := resolver.Get(name, now);
        values := values[name := v];
        todo := todo - {name};
      }
      return (name: string) => if name in values then values[name] else 0;
    }

    // What happened to the counters during one request.
    ghost predicate CountersBumped(before: Option<CounterStores.CounterState>, after: Option<CounterStores.CounterState>,
                                   req: RequestContext, order: seq<string>, at: CounterStores.Instant)
    {
      if before.None? then after.None?
      else Counting.Enumerates(order, definitions)
           && after == Some(Counting.Applied(before.value, Counting.Increments(definitions, order, req, at)))
    }

    // Evaluates the chains on a counter snapshot; once a decision is reached
    // the counters whose condition matches are bumped.
    method EvaluateAndCount(chains: ChainMap, c: Classification, req: AuthRequest, token: string, sign: string, clk: Clock)
      returns (out: Outcome, trace: seq<TraceStep>, marks: seq<string>, ghost seen: string -> int, ghost order: seq<string>)
      requires Valid() && wiring.engine == Some(chains)
      modifies CounterObjects()
      ensures Valid() && UsageView() == old(UsageView()) && fresh(CounterObjects() - old(CounterObjects()))
      ensures forall name :: seen(name) == CounterValue(old(CounterView()), definitions,
                RiskContext(wiring, req, token, sign, c, NO_COUNTERS), name, clk.evaluate)
      ensures var (o, st) := Evaluate(chains, "INPUT", RiskContext(wiring, req, token, sign, c, seen));
              out == o && trace == st.trace && marks == st.marks
      ensures if out.Decided?
              then CountersBumped(old(CounterView()), CounterView(), RiskContext(wiring, req, token, sign, c, seen), order, clk.count)
              else CounterView() == old(CounterView())
    {
      var snapshot := SnapshotCounters(RiskContext(wiring, req, token, sign, c, NO_COUNTERS), clk.evaluate);
      seen, order := snapshot, [];
      var riskReq := RiskContext(wiring, req, token, sign, c, snapshot);
      out, trace, marks := EvaluateWithEntry(chains, "INPUT", riskReq);
      if out.Decided? { order := BumpCounters(riskReq, clk.count); }
    }

    method BumpCounters(riskReq: RequestContext, now: CounterStores.Instant) returns (ghost order: seq<string>)
      requires Valid()
      modifies CounterObjects()
      ensures Valid() && UsageView() == old(UsageView()) && fresh(CounterObjects() - old(CounterObjects()))
      ensures CountersBumped(old(CounterView()), CounterView(), riskReq, order, now)
    {
      order := [];
      if counters != null {
        var _, o := Counting.IncrementForRequest(definitions, counters, riskReq, now);
        order := o;
      }
    }

    // Counters move exactly when the rule engine reached a decision.
    ghost predicate CountersFollow(before: Option<CounterStores.CounterState>, after: Option<CounterStores.CounterState>,
                                   req: AuthRequest, token: string, sign: string, c: Classification,
                                   seen: string -> int, order: seq<string>, clk: Clock)
    {
      && (wiring.engine.Some? ==> forall name ::
            seen(name) == CounterValue(before, definitions, RiskContext(wiring, req, token, sign, c, NO_COUNTERS), name, clk.evaluate))
      && (if Decides(wiring, req, token, sign, c, seen)
          then CountersBumped(before, after, RiskContext(wiring, req, token, sign, c, seen), order, clk.count)
          else after == before)
    }

    // None means "fall through to the PoW-only flow".
    method RunRiskEngine(ctx: VerifyCtx, c: Classification, req: AuthRequest, token: string, sign: string, clk: Clock)
      returns (res: Option<AuthResult>, ghost seen: string -> int, ghost order: seq<string>)
      requires Valid() && ctx !in UsageObjects() + CounterObjects() && ctx.payload == c.payload && ctx.charge == NO_CHARGE
      modifies UsageObjects(), CounterObjects(), ctx
      ensures Valid() && ctx !in UsageObjects() + CounterObjects() && fresh(UsageObjects() - old(UsageObjects())) && fresh(CounterObjects() - old(CounterObjects()))
      ensures (res, UsageView()) == Auth.RunRiskEngine(wiring, cfg, old(UsageView()), c, req, token, sign, seen, clk.unix)
      ensures res.None? ==> ctx.payload == old(ctx.payload)
      ensures CountersFollow(old(CounterView()), CounterView(), req, token, sign, c, seen, order, clk)
    {
      seen, order := NO_COUNTERS, [];
      if wiring.engine.None? { return None, seen, order; }
      var out, trace, marks, s, o := EvaluateAndCount(wiring.engine.value, c, req, token, sign, clk);
      seen, order := s, o;
      if out.ChainNotFound? { return None, seen, order; }
      ghost var counted := CounterView();
      res := ActOn(ctx, out.decision, trace, marks, c, req, token, sign, clk.unix);
      assert CounterView() == counted;
    }

    method VerifyWithoutPow(req: AuthRequest, clk: Clock) returns (res: AuthResult, ghost seen: string -> int, ghost order: seq<string>)
      requires Valid()
      modifies UsageObjects(), CounterObjects()
      ensures Valid() && fresh(UsageObjects() - old(UsageObjects())) && fresh(CounterObjects() - old(CounterObjects()))
      ensures (res, UsageView()) == Auth.VerifyWithoutPow(wiring, cfg, old(UsageView()), req, seen, clk.unix)
      ensures CountersFollow(old(CounterView()), CounterView(), req, "", "", Classification(None, PowStatus.Missing, ""), seen, order, clk)
    {
      var ctx := new VerifyCtx(None);
      var verdict, s, o := RunRiskEngine(ctx, Classification(None, PowStatus.Missing, ""), req, "", "", clk);
      seen, order := s, o;
      if verdict.Some? { return verdict.value, seen, order; }
      return AllowDecision(Reason.PowDisabled, "", PowOff), seen, order;
    }

    method VerifyClassified(req: AuthRequest, token: string, sign: string, c: Classification, clk: Clock)
      returns (res: AuthResult, ghost seen: string -> int, ghost order: seq<string>)
      requires Valid()
      modifies UsageObjects(), CounterObjects()
      ensures Valid() && fresh(UsageObjects() - old(UsageObjects())) && fresh(CounterObjects() - old(CounterObjects()))
      ensures (res, UsageView()) == Auth.VerifyClassified(wiring, cfg, old(UsageView()), req, token, sign, c, seen, clk.unix)
      ensures CountersFollow(old(CounterView()), CounterView(), req, token, sign, c, seen, order, clk)
    {
      ghost var usage, counts := UsageView(), CounterView();
      var ctx := new VerifyCtx(c.payload);
      assert UsageView() == usage && CounterView() == counts;
      var verdict, s, o := RunRiskEngine(ctx, c, req, token, sign, clk);
      seen, order := s, o;
      if verdict.Some? { return verdict.value, seen, order; }
      if wiring.engine.None? && !wiring.shouldProtect(req.originalURI) {
        return AllowDecision(Reason.NotProtected, "", NotProtectedPath), seen, order;
      }
      ghost var counted := CounterView();
      res := VerifyPoWOnly(ctx, req, token, sign, clk.unix);
      assert CounterView() == counted;
    }

    method Classify(req: AuthRequest, token: string, sign: string, now: int) returns (c: Classification)
      ensures c == Auth.Classify(wiring.lib, cfg, token, sign, req, now)
    {
      if token == "" || sign == "" { return Classification(None, PowStatus.Missing, ""); }
      c := ClassifyPoW(token, sign, req.originalURI, req.realIP, now);
    }

    // The branch with proof of work: the token is classified for the rules.
    method VerifyWithPow(req: AuthRequest, clk: Clock) returns (res: AuthResult, ghost seen: string -> int, ghost order: seq<string>)
      requires Valid() && cfg.powEnabled
      modifies UsageObjects(), CounterObjects()
      ensures Valid() && fresh(UsageObjects() - old(UsageObjects())) && fresh(CounterObjects() - old(CounterObjects()))
      ensures (res, UsageView()) == Auth.VerifyGated(wiring, cfg, old(UsageView()), req, seen, clk.unix)
      ensures GatedCounters(old(CounterView()), CounterView(), req, seen, order, clk)
    {
      var (token, sign) := wiring.extract(req.originalArgs);
      var c := Classify(req, token, sign, clk.unix.classify);
      res, seen, order := VerifyClassified(req, token, sign, c, clk);
    }

    // Everything behind the bypass, header and pending gates. `seen` is the
    // counter snapshot the rules worked with.
    method VerifyGated(req: AuthRequest, clk: Clock) returns (res: AuthResult, ghost seen: string -> int, ghost order: seq<string>)
      requires Valid()
      modifies UsageObjects(), CounterObjects()
      ensures Valid() && fresh(UsageObjects() - old(UsageObjects())) && fresh(CounterObjects() - old(CounterObjects()))
      ensures (res, UsageView()) == Auth.VerifyGated(wiring, cfg, old(UsageView()), req, seen, clk.unix)
      ensures GatedCounters(old(CounterView()), CounterView(), req, seen, order, clk)
    {
      if cfg.powEnabled {
        res, seen, order := VerifyWithPow(req, clk);
      } else {
        res, seen, order := VerifyWithoutPow(req, clk);
      }
    }

    // The risk request knows nothing about the token when PoW is off.
    ghost predicate GatedCounters(before: Option<CounterStores.CounterState>, after: Option<CounterStores.CounterState>,
                                  req: AuthRequest, seen: string -> int, order: seq<string>, clk: Clock)
    {
      var (token, sign) := if cfg.powEnabled then wiring.extract(req.originalArgs) else ("", "");
      var c := if cfg.powEnabled then Auth.Classify(wiring.lib, cfg, token, sign, req, clk.unix.classify)
               else Classification(None, PowStatus.Missing, "");
      CountersFollow(before, after, req, token, sign, c, seen, order, clk)
    }

    // One request from start to finish; a reserved slot is always given back.
    method Verify(req: AuthRequest, clk: Clock)
      returns (res: AuthResult, ghost blocked: bool, ghost seen: string -> int, ghost order: seq<string>)
      requires Valid()
      modifies UsageObjects(), CounterObjects(), blocker
      ensures Valid() && fresh(UsageObjects() - old(UsageObjects())) && fresh(CounterObjects() - old(CounterObjects()))
      ensures (blocked, BlockerView()) == Pending(old(BlockerView()), req, clk)
      ensures (res, UsageView()) == Auth.Verify(wiring, cfg, old(UsageView()), req, seen, blocked, clk.unix)
      ensures if cfg.bypassAll || req.originalURI == "" || blocked then CounterView() == old(CounterView())
              else GatedCounters(old(CounterView()), CounterView(), req, seen, order, clk)
    {
      blocked, seen, order := false, NO_COUNTERS, [];
      if cfg.bypassAll {
        res := AllowDecision(Reason.BypassAll, "", Bypass);
      } else if req.originalURI == "" {
        res := DenyStatus(500, Reason.MissingHeaders, "");
      } else if blocker != null && PendingApplies(wiring, cfg, req) {
        res, blocked, seen, order := VerifyHoldingSlot(req, clk);
      } else {
        res, seen, order := VerifyGated(req, clk);
      }
    }

    method VerifyHoldingSlot(req: AuthRequest, clk: Clock)
      returns (res: AuthResult, ghost blocked: bool, ghost seen: string -> int, ghost order: seq<string>)
      requires Valid() && blocker != null && PendingApplies(wiring, cfg, req)
      modifies UsageObjects(), CounterObjects(), blocker
      ensures Valid() && fresh(UsageObjects() - old(UsageObjects())) && fresh(CounterObjects() - old(CounterObjects()))
      ensures (blocked, BlockerView()) == Pending(old(BlockerView()), req, clk)
      ensures (res, UsageView()) == if blocked then (DenyStatus(429, Reason.IPPendingBlocked, ""), old(UsageView()))
                                    else Auth.VerifyGated(wiring, cfg, old(UsageView()), req, seen, clk.unix)
      ensures if blocked then CounterView() == old(CounterView())
              else GatedCounters(old(CounterView()), CounterView(), req, seen, order, clk)
    {
      seen, order := NO_COUNTERS, [];
      ghost var counted, used := CounterView(), UsageView();
      var release, refused := blocker.Enter(req.realIP, clk.enter);
      blocked := refused;
      assert Valid() && CounterView() == counted && UsageView() == used;
      if refused {
        res := DenyStatus(429, Reason.IPPendingBlocked, "");
      } else {
        res, seen, order := VerifyAndRelease(release, req, clk);
      }
    }

    // The deferred release runs after everything else.
    method VerifyAndRelease(release: PendingLimiter.ReleaseHandle, req: AuthRequest, clk: Clock)
      returns (res: AuthResult, ghost seen: string -> int, ghost order: seq<string>)
      requires Valid() && release.blocker == blocker && release !in UsageObjects() && release !in CounterObjects()
      modifies UsageObjects(), CounterObjects(), release, release.blocker
      ensures Valid() && fresh(UsageObjects() - old(UsageObjects())) && fresh(CounterObjects() - old(CounterObjects()))
      ensures release.blocker.State() == if old(release.done) || release.ip.None? then old(release.blocker.State())
                                         else PendingLimiter.ReleaseNext(old(release.blocker.State()), release.ip.value, clk.leave)
      ensures (res, UsageView()) == Auth.VerifyGated(wiring, cfg, old(UsageView()), req, seen, clk.unix)
      ensures GatedCounters(old(CounterView()), CounterView(), req, seen, order, clk)
    {
      ghost var held, kept := release.blocker.State(), release.done;
      res, seen, order := VerifyGated(req, clk);
      assert release.blocker.State() == held && release.done == kept;
      ghost var counted, used := CounterView(), UsageView();
      release.Call(clk.leave);
      assert Valid() && CounterView() == counted && UsageView() == used;
    }

    // The limiter's answer, and its state once the request is over.
    ghost function Pending(before: Option<PendingLimiter.Limiter>, req: AuthRequest, clk: Clock): (bool, Option<PendingLimiter.Limiter>)
      reads this
    {
      if blocker == null || before.None? || !PendingApplies(wiring, cfg, req) then (false, before)
      else match blocker.canonicalIP(req.realIP)
      case None => (false, before)
      case Some(ip) =>
        var (refused, entered) := PendingLimiter.EnterNext(blocker.limits, before.value, ip, clk.enter);
        (refused, Some(if refused then entered else PendingLimiter.ReleaseNext(entered, ip, clk.leave)))
    }
  }

  const NO_COUNTERS := (_: string) => 0

  ghost function CounterValue(s: Option<CounterStores.CounterState>, defs: Counting.Definitions, req: RequestContext,
                              name: string, now: CounterStores.Instant): int {
    if s.None? then 0 else Counting.Resolve(defs, s.value, req, name, now)
  }

  // Did the rule engine run and reach a decision?
  ghost predicate Decides(w: Wiring, req: AuthRequest, token: string, sign: string, c: Classification, counters: string -> int) {
    w.engine.Some? && Evaluate(w.engine.value, "INPUT", RiskContext(w, req, token, sign, c, counters)).0.Decided?
  }

  // The limiter counts protected requests with a proper address while it is
  // switched on, and is left alone by all others.
  lemma LimiterIsForProtected(svc: AuthService, before: PendingLimiter.Limiter, req: AuthRequest, clk: Clock)
    ensures var applies := && svc.blocker != null && !svc.cfg.bypassAll && req.originalURI != ""
                           && svc.wiring.shouldProtect(req.originalURI) && svc.cfg.riskEnabled && svc.cfg.pendingEnabled
                           && svc.blocker.canonicalIP(req.realIP).Some?;
            svc.Pending(Some(before), req, clk)
            == if !applies then (false, Some(before))
               else
                 var ip := svc.blocker.canonicalIP(req.realIP).value;
                 var (refused, entered) := PendingLimiter.EnterNext(svc.blocker.limits, before, ip, clk.enter);
                 (refused, Some(if refused then entered else PendingLimiter.ReleaseNext(entered, ip, clk.leave)))
  {
  }
}
