// The verdict on one request (internal/auth): which checks a token must pass,
// how it is classified for the rule engine, and what each path answers and
// writes to the usage store. State is passed in and out; module Service runs
// the same steps on real stores.
module Auth {
  import opened Prelude
  import opened Token
  import opened UsageStores
  import opened RuleChains
  import Difficulty

  // ------------------------------------------------------------- settings

  datatype ModeSettings = ModeSettings(enabled: bool, maxTTL: int, minDifficulty: int, maxDifficulty: int)

  // gracePeriod is a duration in nanoseconds.
  datatype Config = Config(
    powEnabled: bool, bypassAll: bool, dryRun: bool, maxTokenLength: int, maxSignLength: int,
    allowedSalts: seq<string>, allowEmptySalt: bool, algorithm: string,
    ipBound: ModeSettings, generic: ModeSettings, maxUses: int, countHead: bool,
    gracePeriod: int, riskEnabled: bool, pendingEnabled: bool)

  const SECOND := 1_000_000_000

  function GraceSeconds(cfg: Config): int {
    if cfg.gracePeriod > 0 then cfg.gracePeriod / SECOND else 0
  }

  datatype AuthRequest = AuthRequest(
    originalURI: string, originalMethod: string, originalArgs: string,
    realIP: string, userAgent: string, originalRange: string)

  // What the service is wired to: library calls, path protection, query
  // parsing, and the compiled chains when risk control is on.
  datatype Wiring = Wiring(
    lib: Library, shouldProtect: string -> bool, extract: string -> (string, string), engine: Option<ChainMap>)

  // The clock readings of one request, in Unix seconds, where the code takes
  // them: classification, the PoW-only check, and the quota charge or binding.
  datatype Readings = Readings(classify: int, verify: int, charge: int, wall: int)

  ghost predicate Frozen(clk: Readings) {
    clk.classify == clk.verify == clk.charge
  }

  // -------------------------------------------------------------- results

  datatype AuthResult = AuthResult(
    allowed: bool, httpStatus: int, reason: Reason, mode: string, signID: string, uses: int, maxUses: int,
    errorHeader: Reason, limitRate: string, decision: PowDecision, dryRunOriginalError: Reason,
    riskChain: string, riskRule: string, riskTrace: seq<TraceStep>, riskMarks: seq<string>)

  // The reasons of this package, or the text a rule supplies.
  datatype Reason =
    | NoReason
    | NotProtected | IPBoundValid | GenericValid | DryRunAllow | BypassAll | PowDisabled | RiskAccept | RequirePowPass
    | MissingHeaders | MissingTokenOrSign | TokenTooLong | SignTooLong | MalformedToken | UnsupportedVersion | UnsupportedMode
    | ModeDisabled | UnsupportedAlgorithm | PathMismatch | Expired | TTLTooLong | TimestampFromFuture | DifficultyTooLow
    | InvalidCounter | InvalidSalt | InvalidIP | IPForbidden | MissingRealIP | InvalidSignFormat | SignMismatch
    | DifficultyNotMet | IPMismatch | UsedUp | RateLimited | IPPendingBlocked | RiskReject | StorageError
    | FromRule(text: string)

  datatype PowDecision =
    Verified | UnverifiedSlow | UnverifiedVerySlow | NotProtectedPath | Denied | Bypass | DryRun | PowOff

  function StatusForReason(reason: Reason): int {
    match reason
    case NotProtected | IPBoundValid | GenericValid | DryRunAllow | BypassAll | PowDisabled | RiskAccept | RequirePowPass => 200
    case RateLimited | IPPendingBlocked => 429
    case StorageError | MissingHeaders | MissingRealIP => 500
    case FromRule(text) => StatusForText(text)
    case _ => 403
  }

  // A rule's own reason text is looked up in the same table.
  function StatusForText(text: string): int {
    if text in {"not_protected", "ip_bound_valid", "generic_valid", "dry_run_allow", "bypass_all", "pow_disabled",
                "risk_accept", "risk_rate_limit", "require_pow_pass"} then 200
    else if text in {"rate_limited", "risk_too_many", "ip_pending_blocked"} then 429
    else if text in {"storage_error", "internal_error", "missing_headers", "missing_real_ip"} then 500
    else 403
  }

  function RuleReason(text: string, fallback: Reason): Reason {
    if text == "" then fallback else FromRule(text)
  }

  function AllowDecision(reason: Reason, mode: string, decision: PowDecision): AuthResult {
    AuthResult(true, 200, reason, mode, "", 0, 0, NoReason, "", decision, NoReason, "", "", [], [])
  }

  function Allow(reason: Reason, mode: string): AuthResult {
    AllowDecision(reason, mode, Verified)
  }

  function DenyStatus(status: int, reason: Reason, mode: string): AuthResult {
    AuthResult(false, status, reason, mode, "", 0, 0, reason, "", Denied, NoReason, "", "", [], [])
  }

  function DenyMode(reason: Reason, mode: string): AuthResult {
    DenyStatus(StatusForReason(reason), reason, mode)
  }

  // In dry-run mode a denial passes, keeping its reason for visibility.
  function MaybeDryRun(cfg: Config, res: AuthResult): AuthResult {
    if !cfg.dryRun || res.allowed then res
    else res.(allowed := true, httpStatus := 200, reason := Reason.DryRunAllow,
              dryRunOriginalError := res.reason, errorHeader := NoReason, decision := DryRun)
  }

  // ------------------------------------------------------ checking a token

  function SameIP(lib: Library, a: string, b: string): bool {
    && a != "" && b != ""
    && (lib.equalFold(a, b)
        || (lib.parseAddr(a).Some? && lib.parseAddr(b).Some? && lib.parseAddr(a) == lib.parseAddr(b)))
  }

  datatype ModeConfig = ModeConfig(enabled: bool, maxTTL: int, opts: ValidatorOptions)

  function ModeConfigFor(cfg: Config, mode: string): Option<ModeConfig> {
    if mode == IP_BOUND then Some(Bundle(cfg, mode, cfg.ipBound))
    else if mode == GENERIC then Some(Bundle(cfg, mode, cfg.generic))
    else None
  }

  function Bundle(cfg: Config, mode: string, m: ModeSettings): ModeConfig {
    ModeConfig(m.enabled, m.maxTTL,
               ValidatorOptions(cfg.allowedSalts, cfg.allowEmptySalt, [mode], m.minDifficulty, m.maxDifficulty, cfg.algorithm))
  }

  function ReasonFromValidationError(e: PayloadError): (r: Reason)
    ensures StatusForReason(r) == 403
  {
    match e
    case UnsupportedVersion => Reason.UnsupportedVersion
    case UnsupportedMode => Reason.UnsupportedMode
    case UnsupportedAlgorithm => Reason.UnsupportedAlgorithm
    case IPInvalid => Reason.InvalidIP
    case IPForbidden => Reason.IPForbidden
    case CounterInvalid => Reason.InvalidCounter
    case DifficultyInvalid => Reason.DifficultyTooLow
    case SaltInvalid => Reason.InvalidSalt
    case _ => Reason.MalformedToken
  }

  function CheckTime(p: TokenPayload, maxTTL: int, now: int): (r: Option<Reason>)
    ensures r.Some? ==> StatusForReason(r.value) == 403
    ensures r.None? <==> now < p.expiresAt && p.timestamp <= now + 60 && (maxTTL > 0 ==> p.expiresAt - p.timestamp <= maxTTL)
  {
    if p.expiresAt <= now then Some(Reason.Expired)
    else if maxTTL > 0 && p.expiresAt - p.timestamp > maxTTL then Some(Reason.TTLTooLong)
    else if p.timestamp > now + 60 then Some(Reason.TimestampFromFuture)
    else None
  }

  predicate IsHexDigit(c: char) {
    '0' <= c <= '9' || 'a' <= c <= 'f' || 'A' <= c <= 'F'
  }

  predicate IsValidSignHex(s: string) {
    |s| == 64 && forall c :: c in s ==> IsHexDigit(c)
  }

  predicate CompareSign(lib: Library, computed: string, sign: string) {
    computed != "" && sign != "" && lib.equalFold(computed, sign)
  }

  ghost function CheckSignAndDifficulty(lib: Library, p: TokenPayload, sign: string): (r: Option<Reason>)
    ensures r.Some? ==> StatusForReason(r.value) == 403
    ensures r.None? ==> IsValidSignHex(sign)
  {
    var canonical := BuildCanonicalInput(p);
    if !IsValidSignHex(sign) then Some(Reason.InvalidSignFormat)
    else if !CompareSign(lib, lib.sha256Hex(canonical), sign) then Some(Reason.SignMismatch)
    else if !Difficulty.Meets(lib.sha256(canonical), p.difficulty) then Some(Reason.DifficultyNotMet)
    else None
  }

  // The single definition of "this token is good": None when it passes.
  ghost function ValidateTokenForMode(lib: Library, cfg: Config, p: TokenPayload, mode: string, path: string,
                                      sign: string, now: int): (r: Option<Reason>)
    ensures r.Some? ==> StatusForReason(r.value) == 403
    ensures r.None? ==> mode in {IP_BOUND, GENERIC} && p.path == path && now < p.expiresAt && IsValidSignHex(sign)
                        && ValidatePayload(lib, p, Some(ModeConfigFor(cfg, mode).value.opts)).None?
  {
    match ModeConfigFor(cfg, mode)
    case None => Some(Reason.UnsupportedMode)
    case Some(mc) =>
      if !mc.enabled then Some(Reason.ModeDisabled)
      else match ValidatePayload(lib, p, Some(mc.opts))
      case Some(e) => Some(ReasonFromValidationError(e))
      case None =>
        if p.path != path then Some(Reason.PathMismatch)
        else match CheckTime(p, mc.maxTTL, now)
        case Some(reason) => Some(reason)
        case None => CheckSignAndDifficulty(lib, p, sign)
  }

  function StatusForValidationReason(reason: Reason): PowStatus {
    match reason
    case Expired => PowStatus.Expired
    case ModeDisabled => PowStatus.ModeDisabled
    case _ => PowStatus.Invalid
  }

  // (payload, pow_status, pow_mode) for the rule engine.
  datatype Classification = Classification(payload: Option<TokenPayload>, status: PowStatus, mode: string)

  ghost function ClassifyPoW(lib: Library, cfg: Config, token: string, sign: string, path: string,
                             realIP: string, now: int): Classification {
    if |token| > cfg.maxTokenLength || |sign| > cfg.maxSignLength then Classification(None, PowStatus.Invalid, "")
    else match lib.decodeToken(token)
    case None => Classification(None, PowStatus.Invalid, "")
    case Some(p) =>
      match ValidateTokenForMode(lib, cfg, p, p.mode, path, sign, now)
      case Some(reason) => Classification(Some(p), StatusForValidationReason(reason), p.mode)
      case None =>
        if p.mode == IP_BOUND && realIP == "" then Classification(Some(p), PowStatus.Unverifiable, p.mode)
        else if p.mode == IP_BOUND && p.ip != "" && !SameIP(lib, p.ip, realIP) then Classification(Some(p), PowStatus.Invalid, p.mode)
        else Classification(Some(p), PowStatus.Valid, p.mode)
  }

  ghost function Classify(lib: Library, cfg: Config, token: string, sign: string, req: AuthRequest, now: int): Classification {
    if token == "" || sign == "" then Classification(None, PowStatus.Missing, "")
    else ClassifyPoW(lib, cfg, token, sign, req.originalURI, req.realIP, now)
  }

  // ---------------------------------------------------- using up a token

  type Store = Option<UsageState>

  function HashToken(lib: Library, token: string): string {
    if token == "" then "" else lib.sha256Hex(token)
  }

  function GenericInput(lib: Library, cfg: Config, p: TokenPayload, req: AuthRequest, token: string, sign: string, now: int): ConsumeInput {
    ConsumeInput(ComputeSignID(lib, p, sign, GENERIC), GENERIC, p.path, sign, HashToken(lib, token), p.expiresAt, cfg.maxUses,
                 req.realIP, req.userAgent, now, GraceSeconds(cfg), req.originalMethod == "HEAD" && !cfg.countHead)
  }

  function BindingInput(lib: Library, cfg: Config, p: TokenPayload, req: AuthRequest, token: string, sign: string, now: int): ConsumeInput {
    ConsumeInput(ComputeSignID(lib, p, sign, IP_BOUND), IP_BOUND, p.path, sign, HashToken(lib, token), p.expiresAt, 1,
                 req.realIP, req.userAgent, now, GraceSeconds(cfg), true)
  }

  // consumeGenericQuota: None stands for a storage error.
  function ConsumeGenericQuota(lib: Library, cfg: Config, store: Store, p: TokenPayload, req: AuthRequest,
                               token: string, sign: string, now: int, wall: int): (Option<ConsumeResult>, Store) {
    match store
    case None => (None, None)
    case Some(s) =>
      match ConsumeNext(s, GenericInput(lib, cfg, p, req, token, sign, now), wall)
      case (Ok(cr), s') => (Some(cr), Some(s'))
      case (Err(_), s') => (None, Some(s'))
  }

  // First-use binding of an empty-IP token: a denial, or None to go on.
  function BindEmptyIP(lib: Library, cfg: Config, store: Store, p: TokenPayload, req: AuthRequest,
                       token: string, sign: string, clk: Readings): (Option<AuthResult>, Store) {
    var signID := ComputeSignID(lib, p, sign, IP_BOUND);
    var storageError := MaybeDryRun(cfg, DenyStatus(500, Reason.StorageError, IP_BOUND).(signID := signID));
    match store
    case None => (None, None)
    case Some(s) =>
      match Lookup(s, signID)
      case Ok(rec) =>
        if rec.firstIP != "" && !SameIP(lib, rec.firstIP, req.realIP)
        then (Some(MaybeDryRun(cfg, DenyMode(Reason.IPMismatch, IP_BOUND))), store)
        else (None, store)
      case Err(Closed) => (Some(storageError), store)
      case Err(NotFound) =>
        var (r, s') := ConsumeNext(s, BindingInput(lib, cfg, p, req, token, sign, clk.charge), clk.wall);
        (if r.Err? then Some(storageError) else None, Some(s'))
  }

  // --------------------------------------------------- the PoW-only flow

  function FinalizeIPBound(lib: Library, cfg: Config, store: Store, p: TokenPayload, req: AuthRequest,
                           token: string, sign: string, clk: Readings): (AuthResult, Store) {
    if req.realIP == "" then (DenyStatus(500, Reason.MissingRealIP, IP_BOUND), store)
    else if p.ip == "" then
      match BindEmptyIP(lib, cfg, store, p, req, token, sign, clk)
      case (Some(denial), store') => (denial, store')
      case (None, store') =>
        // The payload's IP has been filled in by now.
        (Allow(Reason.IPBoundValid, IP_BOUND).(signID := ComputeSignID(lib, p.(ip := req.realIP), sign, IP_BOUND)), store')
    else if !SameIP(lib, p.ip, req.realIP) then (MaybeDryRun(cfg, DenyMode(Reason.IPMismatch, IP_BOUND)), store)
    else (Allow(Reason.IPBoundValid, IP_BOUND).(signID := ComputeSignID(lib, p, sign, IP_BOUND)), store)
  }

  function FinalizeGeneric(lib: Library, cfg: Config, store: Store, p: TokenPayload, req: AuthRequest,
                           token: string, sign: string, clk: Readings): (AuthResult, Store) {
    var signID := ComputeSignID(lib, p, sign, GENERIC);
    match ConsumeGenericQuota(lib, cfg, store, p, req, token, sign, clk.verify, clk.wall)
    case (None, store') => (MaybeDryRun(cfg, DenyStatus(500, Reason.StorageError, GENERIC).(signID := signID)), store')
    case (Some(cr), store') =>
      if !cr.allowed then
        (MaybeDryRun(cfg, DenyMode(Reason.UsedUp, GENERIC).(signID := signID, uses := cr.uses, maxUses := cr.maxUses)), store')
      else
        (Allow(Reason.GenericValid, GENERIC).(signID := signID, uses := cr.uses, maxUses := cr.maxUses), store')
  }

  ghost function VerifyPoWOnly(lib: Library, cfg: Config, store: Store, req: AuthRequest, token: string, sign: string,
                               payload: Option<TokenPayload>, clk: Readings): (AuthResult, Store) {
    if token == "" || sign == "" then (MaybeDryRun(cfg, DenyMode(Reason.MissingTokenOrSign, "")), store)
    else if |token| > cfg.maxTokenLength then (MaybeDryRun(cfg, DenyMode(Reason.TokenTooLong, "")), store)
    else if |sign| > cfg.maxSignLength then (MaybeDryRun(cfg, DenyMode(Reason.SignTooLong, "")), store)
    else match payload
    case None => (MaybeDryRun(cfg, DenyMode(Reason.MalformedToken, "")), store)
    case Some(p) =>
      match ValidateTokenForMode(lib, cfg, p, p.mode, req.originalURI, sign, clk.verify)
      case Some(reason) => (MaybeDryRun(cfg, DenyMode(reason, p.mode)), store)
      case None =>
        if p.mode == IP_BOUND then FinalizeIPBound(lib, cfg, store, p, req, token, sign, clk)
        else FinalizeGeneric(lib, cfg, store, p, req, token, sign, clk)
  }

  // ----------------------------------------------------- the risk engine

  predicate ContainsRangeMarker(args: string) {
    exists i :: 0 <= i <= |args| && HasPrefix(Lower(args)[i..], "range=")
  }

  function IsRangeRequest(lib: Library, req: AuthRequest): bool {
    lib.equalFold(req.originalMethod, "HEAD") || req.originalRange != "" || ContainsRangeMarker(req.originalArgs)
  }

  function RiskContext(w: Wiring, req: AuthRequest, token: string, sign: string, c: Classification,
                       counters: string -> int): RequestContext {
    RequestContext(req.originalURI, req.originalMethod, req.originalArgs, req.realIP, req.userAgent,
                   token != "", sign != "", c.status, c.mode, w.shouldProtect(req.originalURI),
                   IsRangeRequest(w.lib, req), counters)
  }

  // What chargeQuotaForRiskAllow leaves behind in the request context.
  datatype Charge = Charge(signID: string, uses: int, maxUses: int)

  const NO_CHARGE := Charge("", 0, 0)

  // An allow on the strength of a valid token owes the token's quota or
  // binding: a denial to return, or what was charged.
  function ChargeForRiskAllow(lib: Library, cfg: Config, store: Store, c: Classification, req: AuthRequest,
                              token: string, sign: string, clk: Readings): (Result<Charge, AuthResult>, Store) {
    if !c.status.Valid? || c.payload.None? then (Ok(NO_CHARGE), store)
    else if c.mode == GENERIC then
      var p := c.payload.value;
      var signID := ComputeSignID(lib, p, sign, GENERIC);
      match ConsumeGenericQuota(lib, cfg, store, p, req, token, sign, clk.charge, clk.wall)
      case (None, store') => (Err(DenyStatus(500, Reason.StorageError, GENERIC).(signID := signID)), store')
      case (Some(cr), store') =>
        if !cr.allowed then
          (Err(MaybeDryRun(cfg, DenyMode(Reason.UsedUp, GENERIC).(signID := signID, uses := cr.uses, maxUses := cr.maxUses))), store')
        else (Ok(Charge(signID, cr.uses, cr.maxUses)), store')
    else if c.mode == IP_BOUND && c.payload.value.ip == "" then
      match BindEmptyIP(lib, cfg, store, c.payload.value, req, token, sign, clk)
      case (Some(denial), store') => (Err(denial), store')
      case (None, store') => (Ok(NO_CHARGE), store')
    else (Ok(NO_CHARGE), store)
  }

  function PowStatusToReason(status: PowStatus): Reason {
    match status
    case Expired => Reason.Expired
    case UsedUp => Reason.UsedUp
    case Unverifiable => Reason.MissingRealIP
    case ModeDisabled => Reason.ModeDisabled
    case _ => Reason.SignMismatch
  }

  predicate IsVerifiedReason(reason: Reason) {
    match reason
    case GenericValid | IPBoundValid | RequirePowPass => true
    case FromRule(text) => text in {"generic_valid", "ip_bound_valid", "require_pow_pass", "valid_pow_full_speed"}
    case _ => false
  }

  // Length of the leading run of digits.
  function DigitRun(s: string): (n: nat)
    ensures n <= |s|
  {
    if s != "" && '0' <= s[0] <= '9' then 1 + DigitRun(s[1..]) else 0
  }

  function DecimalValue(s: string): nat {
    if s == "" then 0
    else 10 * DecimalValue(s[..|s| - 1]) + if '0' <= s[|s| - 1] <= '9' then s[|s| - 1] as int - '0' as int else 0
  }

  // At most 128k.
  predicate IsVerySlowRate(rate: string) {
    var n := DigitRun(rate);
    var unit := if n < |rate| then LowerChar(rate[n]) else ' ';
    var factor := if unit == 'k' then 1024 else if unit == 'm' then 1024 * 1024 else if unit == 'g' then 1024 * 1024 * 1024 else 1;
    n > 0 && DecimalValue(rate[..n]) * factor <= 128 * 1024
  }

  function DecideForAllow(res: AuthResult): PowDecision {
    if res.mode != "" && IsVerifiedReason(res.reason) then Verified
    else if res.limitRate != "" && res.limitRate != "0" then
      if IsVerySlowRate(res.limitRate) then UnverifiedVerySlow else UnverifiedSlow
    else Verified
  }

  function WithRisk(res: AuthResult, d: Decision, trace: seq<TraceStep>, marks: seq<string>): AuthResult {
    res.(riskChain := d.chain, riskRule := d.ruleName, riskTrace := trace, riskMarks := marks)
  }

  function WithCharge(res: AuthResult, charge: Charge): AuthResult {
    res.(signID := charge.signID, uses := charge.uses, maxUses := charge.maxUses)
  }

  // Acting on a decision of the rule engine.
  function ActOnDecision(w: Wiring, cfg: Config, store: Store, d: Decision, trace: seq<TraceStep>, marks: seq<string>,
                         c: Classification, req: AuthRequest, token: string, sign: string, clk: Readings)
    : (Option<AuthResult>, Store)
  {
    match d.target
    case Accept => ActOnAccept(w, cfg, store, d, trace, marks, c, req, token, sign, clk)
    case RateLimit => ActOnAccept(w, cfg, store, d, trace, marks, c, req, token, sign, clk)
    case Reject => (Some(WithRisk(DenyMode(RuleReason(d.reason, RiskReject), c.mode), d, trace, marks)), store)
    case TooMany => (Some(WithRisk(DenyStatus(429, RuleReason(d.reason, RateLimited), c.mode), d, trace, marks)), store)
    case RequirePow =>
      if c.status.Valid? then
        match ChargeForRiskAllow(w.lib, cfg, store, c, req, token, sign, clk)
        case (Err(denial), store') => (Some(denial), store')
        case (Ok(charge), store') => (Some(WithCharge(Allow(Reason.RequirePowPass, c.mode), charge)), store')
      else if c.status.Missing? then (Some(DenyMode(Reason.MissingTokenOrSign, "")), store)
      else if c.status.Unverifiable? then (Some(DenyStatus(500, Reason.MissingRealIP, c.mode)), store)
      else (Some(DenyMode(PowStatusToReason(c.status), c.mode)), store)
    case _ => (None, store)
  }

  function ActOnAccept(w: Wiring, cfg: Config, store: Store, d: Decision, trace: seq<TraceStep>, marks: seq<string>,
                       c: Classification, req: AuthRequest, token: string, sign: string, clk: Readings)
    : (Option<AuthResult>, Store)
  {
    match ChargeForRiskAllow(w.lib, cfg, store, c, req, token, sign, clk)
    case (Err(denial), store') => (Some(denial), store')
    case (Ok(charge), store') =>
      var res := WithCharge(WithRisk(Allow(RuleReason(d.reason, RiskAccept), c.mode), d, trace, marks), charge)
                 .(limitRate := d.limitRate);
      (Some(res.(decision := DecideForAllow(res))), store')
  }

  // runRiskEngine: None means "fall through to the PoW-only flow".
  ghost function RunRiskEngine(w: Wiring, cfg: Config, store: Store, c: Classification, req: AuthRequest,
                               token: string, sign: string, counters: string -> int, clk: Readings)
    : (Option<AuthResult>, Store)
  {
    match w.engine
    case None => (None, store)
    case Some(chains) =>
      match Evaluate(chains, "INPUT", RiskContext(w, req, token, sign, c, counters))
      case (ChainNotFound(_), _) => (None, store)
      case (Decided(d), st) => ActOnDecision(w, cfg, store, d, st.trace, st.marks, c, req, token, sign, clk)
  }

  // --------------------------------------------------------- one request

  // pow.enabled=false: no token is parsed and the rules decide alone.
  ghost function VerifyWithoutPow(w: Wiring, cfg: Config, store: Store, req: AuthRequest,
                                  counters: string -> int, clk: Readings): (AuthResult, Store) {
    match RunRiskEngine(w, cfg, store, Classification(None, PowStatus.Missing, ""), req, "", "", counters, clk)
    case (Some(res), store') => (res, store')
    case (None, store') => (AllowDecision(Reason.PowDisabled, "", PowOff), store')
  }

  // The rules first, then the PoW-only flow if they leave the verdict open.
  ghost function VerifyClassified(w: Wiring, cfg: Config, store: Store, req: AuthRequest, token: string, sign: string,
                                  c: Classification, counters: string -> int, clk: Readings): (AuthResult, Store) {
    match RunRiskEngine(w, cfg, store, c, req, token, sign, counters, clk)
    case (Some(res), store') => (res, store')
    case (None, store') =>
      if w.engine.None? && !w.shouldProtect(req.originalURI)
      then (AllowDecision(Reason.NotProtected, "", NotProtectedPath), store')
      else VerifyPoWOnly(w.lib, cfg, store', req, token, sign, c.payload, clk)
  }

  // Everything Verify does after the bypass, header and pending gates.
  ghost function VerifyGated(w: Wiring, cfg: Config, store: Store, req: AuthRequest,
                             counters: string -> int, clk: Readings): (AuthResult, Store) {
    if !cfg.powEnabled then VerifyWithoutPow(w, cfg, store, req, counters, clk)
    else
      var (token, sign) := w.extract(req.originalArgs);
      VerifyClassified(w, cfg, store, req, token, sign, Classify(w.lib, cfg, token, sign, req, clk.classify), counters, clk)
  }

  // Verify with the pending limiter's answer given.
  ghost function Verify(w: Wiring, cfg: Config, store: Store, req: AuthRequest, counters: string -> int,
                        blocked: bool, clk: Readings): (AuthResult, Store) {
    if cfg.bypassAll then (AllowDecision(Reason.BypassAll, "", Bypass), store)
    else if req.originalURI == "" then (DenyStatus(500, Reason.MissingHeaders, ""), store)
    else if blocked then (DenyStatus(429, Reason.IPPendingBlocked, ""), store)
    else VerifyGated(w, cfg, store, req, counters, clk)
  }

  predicate PendingApplies(w: Wiring, cfg: Config, req: AuthRequest) {
    !cfg.bypassAll && req.originalURI != "" && w.shouldProtect(req.originalURI) && cfg.riskEnabled && cfg.pendingEnabled
  }

  // --------------------------------------------------------- path agreement

  // A client cannot tell two answers apart by admission or status.
  predicate SameVerdict(a: AuthResult, b: AuthResult) {
    a.allowed == b.allowed && a.httpStatus == b.httpStatus
  }

  // The sign id and the use counts in an answer.
  predicate SameReport(a: AuthResult, b: AuthResult) {
    a.signID == b.signID && a.uses == b.uses && a.maxUses == b.maxUses
  }

  predicate StorageDown(store: Store) {
    store.None? || store.value.closed
  }

  // The requests on which dry-run mode treats both paths alike: token faults
  // are only rewritten by the PoW-only flow, and so is a storage error.
  predicate DryRunAlike(c: Classification, store: Store) {
    c.status.Unverifiable? || (c.status.Valid? && !(c.mode == GENERIC && StorageDown(store)))
  }

  // The verdicts of REQUIRE_POW and of the PoW-only flow.
  lemma SameVerdictIff(w: Wiring, cfg: Config, store: Store, d: Decision, trace: seq<TraceStep>, marks: seq<string>,
                       req: AuthRequest, token: string, sign: string, clk: Readings)
    requires d.target.RequirePow? && Frozen(clk)
    ensures var c := Classify(w.lib, cfg, token, sign, req, clk.classify);
            var (risk, store1) := ActOnDecision(w, cfg, store, d, trace, marks, c, req, token, sign, clk);
            var (only, store2) := VerifyPoWOnly(w.lib, cfg, store, req, token, sign, c.payload, clk);
            && risk.Some? && store1 == store2
            && (SameVerdict(risk.value, only) <==> !cfg.dryRun || DryRunAlike(c, store))
  {
    var c := Classify(w.lib, cfg, token, sign, req, clk.classify);
    ClassifiedModes(w.lib, cfg, token, sign, req, clk.classify);
    if c.status.Valid? {
      ValidTokensAgree(w.lib, cfg, store, c, req, token, sign, clk);
    } else {
      FaultsAgree(w.lib, cfg, store, c, req, token, sign, clk);
    }
  }

  // The classification and the PoW-only flow rest on the same check.
  lemma ClassifiedModes(lib: Library, cfg: Config, token: string, sign: string, req: AuthRequest, now: int)
    ensures var c := Classify(lib, cfg, token, sign, req, now);
            && (c.status.Missing? <==> token == "" || sign == "")
            && (c.status.Valid? ==> c.payload.Some? && c.mode == c.payload.value.mode && c.mode in {IP_BOUND, GENERIC})
            && (c.status.Unverifiable? ==> c.payload.Some? && c.mode == c.payload.value.mode == IP_BOUND && req.realIP == "")
  {
  }

  lemma ValidTokensAgree(lib: Library, cfg: Config, store: Store, c: Classification, req: AuthRequest,
                         token: string, sign: string, clk: Readings)
    requires Frozen(clk) && c == Classify(lib, cfg, token, sign, req, clk.classify) && c.status.Valid?
    requires c.payload.Some? && c.mode == c.payload.value.mode && c.mode in {IP_BOUND, GENERIC}
    ensures var (charge, store1) := ChargeForRiskAllow(lib, cfg, store, c, req, token, sign, clk);
            var (only, store2) := VerifyPoWOnly(lib, cfg, store, req, token, sign, c.payload, clk);
            && store1 == store2
            && (match charge
                case Ok(_) => only.allowed && only.httpStatus == 200
                case Err(denial) => SameVerdict(denial, only) <==> !cfg.dryRun || DryRunAlike(c, store))
            && (charge.Ok? ==> DryRunAlike(c, store))
  {
    ClassifiedValid(lib, cfg, req, token, sign, clk.classify);
    PowOnlyFinalizes(lib, cfg, store, req, token, sign, c.payload.value, clk);
  }

  // A fault the PoW-only flow reports: its status, and whether dry-run mode
  // would have rewritten it.
  predicate Refused(cfg: Config, c: Classification, only: AuthResult) {
    if c.status.Unverifiable? then !only.allowed && only.httpStatus == 500
    else if cfg.dryRun then only.allowed
    else !only.allowed && only.httpStatus == 403
  }

  lemma FaultsAgree(lib: Library, cfg: Config, store: Store, c: Classification, req: AuthRequest,
                    token: string, sign: string, clk: Readings)
    requires Frozen(clk) && c == Classify(lib, cfg, token, sign, req, clk.classify) && !c.status.Valid?
    ensures var (only, store') := VerifyPoWOnly(lib, cfg, store, req, token, sign, c.payload, clk);
            store' == store && Refused(cfg, c, only)
  {
    if c.payload.Some? {
      var p := c.payload.value;
      var reason := ValidateTokenForMode(lib, cfg, p, p.mode, req.originalURI, sign, clk.verify);
      if reason.Some? {
        ClassifyRefuses(lib, cfg, req, token, sign, p, reason.value, clk.classify);
        PowOnlyRefuses(lib, cfg, store, req, token, sign, p, reason.value, clk);
      } else {
        ClassifyAddress(lib, cfg, req, token, sign, p, clk.classify);
        PowOnlyFinalizes(lib, cfg, store, req, token, sign, p, clk);
        AddressFault(lib, cfg, store, req, token, sign, p, c, clk);
      }
    }
  }

  lemma AddressFault(lib: Library, cfg: Config, store: Store, req: AuthRequest, token: string, sign: string,
                     p: TokenPayload, c: Classification, clk: Readings)
    requires req.realIP == "" || (p.ip != "" && !SameIP(lib, p.ip, req.realIP))
    requires c.status.Unverifiable? <==> req.realIP == ""
    ensures var (only, store') := FinalizeIPBound(lib, cfg, store, p, req, token, sign, clk);
            store' == store && Refused(cfg, c, only)
  {
  }

  lemma ClassifyAddress(lib: Library, cfg: Config, req: AuthRequest, token: string, sign: string, p: TokenPayload, now: int)
    requires token != "" && sign != "" && |token| <= cfg.maxTokenLength && |sign| <= cfg.maxSignLength
    requires lib.decodeToken(token) == Some(p)
    requires ValidateTokenForMode(lib, cfg, p, p.mode, req.originalURI, sign, now).None?
    ensures Classify(lib, cfg, token, sign, req, now)
         == if p.mode == IP_BOUND && req.realIP == "" then Classification(Some(p), PowStatus.Unverifiable, p.mode)
            else if p.mode == IP_BOUND && p.ip != "" && !SameIP(lib, p.ip, req.realIP) then Classification(Some(p), PowStatus.Invalid, p.mode)
            else Classification(Some(p), PowStatus.Valid, p.mode)
  {
  }

  lemma ClassifyRefuses(lib: Library, cfg: Config, req: AuthRequest, token: string, sign: string,
                        p: TokenPayload, reason: Reason, now: int)
    requires token != "" && sign != "" && |token| <= cfg.maxTokenLength && |sign| <= cfg.maxSignLength
    requires lib.decodeToken(token) == Some(p)
    requires ValidateTokenForMode(lib, cfg, p, p.mode, req.originalURI, sign, now) == Some(reason)
    ensures var c := Classify(lib, cfg, token, sign, req, now);
            c == Classification(Some(p), StatusForValidationReason(reason), p.mode) && !c.status.Unverifiable?
  {
  }

  lemma PowOnlyRefuses(lib: Library, cfg: Config, store: Store, req: AuthRequest, token: string, sign: string,
                       p: TokenPayload, reason: Reason, clk: Readings)
    requires token != "" && sign != "" && |token| <= cfg.maxTokenLength && |sign| <= cfg.maxSignLength
    requires ValidateTokenForMode(lib, cfg, p, p.mode, req.originalURI, sign, clk.verify) == Some(reason)
    ensures VerifyPoWOnly(lib, cfg, store, req, token, sign, Some(p), clk) == (MaybeDryRun(cfg, DenyMode(reason, p.mode)), store)
  {
  }

  lemma PowOnlyFinalizes(lib: Library, cfg: Config, store: Store, req: AuthRequest, token: string, sign: string,
                         p: TokenPayload, clk: Readings)
    requires token != "" && sign != "" && |token| <= cfg.maxTokenLength && |sign| <= cfg.maxSignLength
    requires ValidateTokenForMode(lib, cfg, p, p.mode, req.originalURI, sign, clk.verify).None?
    ensures VerifyPoWOnly(lib, cfg, store, req, token, sign, Some(p), clk)
         == if p.mode == IP_BOUND then FinalizeIPBound(lib, cfg, store, p, req, token, sign, clk)
            else FinalizeGeneric(lib, cfg, store, p, req, token, sign, clk)
  {
  }

  // REQUIRE_POW and the PoW-only flow report the same sign id and counts for
  // every request but an admitted ip_bound token, for which only the PoW-only
  // flow reports an id. In particular they agree on every generic token.
  lemma SameReportIff(w: Wiring, cfg: Config, store: Store, d: Decision, trace: seq<TraceStep>, marks: seq<string>,
                      req: AuthRequest, token: string, sign: string, clk: Readings)
    requires d.target.RequirePow? && Frozen(clk)
    ensures var c := Classify(w.lib, cfg, token, sign, req, clk.classify);
            var risk := ActOnDecision(w, cfg, store, d, trace, marks, c, req, token, sign, clk).0;
            var only := VerifyPoWOnly(w.lib, cfg, store, req, token, sign, c.payload, clk).0;
            && risk.Some?
            && (SameReport(risk.value, only) <==> only.reason != Reason.IPBoundValid || only.signID == "")
            && (c.status.Valid? && c.mode == GENERIC ==> SameReport(risk.value, only))
  {
    var c := Classify(w.lib, cfg, token, sign, req, clk.classify);
    ClassifiedModes(w.lib, cfg, token, sign, req, clk.classify);
    if c.status.Valid? {
      ClassifiedValid(w.lib, cfg, req, token, sign, clk.classify);
      PowOnlyFinalizes(w.lib, cfg, store, req, token, sign, c.payload.value, clk);
      ValidReports(w.lib, cfg, store, c, req, token, sign, clk);
    } else {
      FaultsReportNothing(w.lib, cfg, store, req, token, sign, clk);
    }
  }

  lemma ValidReports(lib: Library, cfg: Config, store: Store, c: Classification, req: AuthRequest,
                     token: string, sign: string, clk: Readings)
    requires Frozen(clk) && c.status.Valid? && c.payload.Some? && c.mode == c.payload.value.mode && c.mode in {IP_BOUND, GENERIC}
    requires c.mode == IP_BOUND ==> req.realIP != ""
    requires c.mode == IP_BOUND && c.payload.value.ip != "" ==> SameIP(lib, c.payload.value.ip, req.realIP)
    ensures var charge := ChargeForRiskAllow(lib, cfg, store, c, req, token, sign, clk).0;
            var only := if c.mode == IP_BOUND then FinalizeIPBound(lib, cfg, store, c.payload.value, req, token, sign, clk).0
                        else FinalizeGeneric(lib, cfg, store, c.payload.value, req, token, sign, clk).0;
            match charge
            case Ok(paid) =>
              && only.allowed && only.uses == paid.uses && only.maxUses == paid.maxUses
              && (if c.mode == GENERIC then only.signID == paid.signID && only.reason != Reason.IPBoundValid
                  else paid == NO_CHARGE && only.reason == Reason.IPBoundValid)
            case Err(denial) => SameReport(denial, only) && only.reason != Reason.IPBoundValid
  {
  }

  lemma FaultsReportNothing(lib: Library, cfg: Config, store: Store, req: AuthRequest, token: string, sign: string, clk: Readings)
    requires Frozen(clk) && !Classify(lib, cfg, token, sign, req, clk.classify).status.Valid?
    ensures var c := Classify(lib, cfg, token, sign, req, clk.classify);
            var only := VerifyPoWOnly(lib, cfg, store, req, token, sign, c.payload, clk).0;
            only.signID == "" && only.uses == 0 && only.maxUses == 0 && only.reason != Reason.IPBoundValid
  {
    var c := Classify(lib, cfg, token, sign, req, clk.classify);
    if c.payload.Some? {
      var p := c.payload.value;
      var reason := ValidateTokenForMode(lib, cfg, p, p.mode, req.originalURI, sign, clk.verify);
      if reason.Some? {
        PowOnlyRefuses(lib, cfg, store, req, token, sign, p, reason.value, clk);
        assert StatusForReason(reason.value) == 403;
      } else {
        ClassifyAddress(lib, cfg, req, token, sign, p, clk.classify);
        PowOnlyFinalizes(lib, cfg, store, req, token, sign, p, clk);
      }
    }
  }

  // Two flows that leave the same store, give the same verdict exactly when
  // dry-run is off or treats both alike, and report the same sign id and
  // counts exactly when the second does not report an ip_bound token's id,
  // and so for every generic token.
  predicate Agree(cfg: Config, store: Store, c: Classification, risk: (AuthResult, Store), only: (AuthResult, Store)) {
    && risk.1 == only.1
    && (SameVerdict(risk.0, only.0) <==> !cfg.dryRun || DryRunAlike(c, store))
    && (SameReport(risk.0, only.0) <==> only.0.reason != Reason.IPBoundValid || only.0.signID == "")
    && (c.status.Valid? && c.mode == GENERIC ==> SameReport(risk.0, only.0))
  }

  // REQUIRE_POW against the PoW-only flow, whatever chain led to it, with
  // time frozen within the request.
  lemma RequirePowAgreesWithPowOnly(w: Wiring, cfg: Config, store: Store, d: Decision, trace: seq<TraceStep>, marks: seq<string>,
                                    req: AuthRequest, token: string, sign: string, clk: Readings)
    requires d.target.RequirePow? && Frozen(clk)
    ensures var c := Classify(w.lib, cfg, token, sign, req, clk.classify);
            var (risk, store') := ActOnDecision(w, cfg, store, d, trace, marks, c, req, token, sign, clk);
            risk.Some? && Agree(cfg, store, c, (risk.value, store'), VerifyPoWOnly(w.lib, cfg, store, req, token, sign, c.payload, clk))
  {
    SameVerdictIff(w, cfg, store, d, trace, marks, req, token, sign, clk);
    SameReportIff(w, cfg, store, d, trace, marks, req, token, sign, clk);
  }

  // The same, for whole requests: a service whose chains answer REQUIRE_POW
  // against a service without a rule engine.
  lemma RequirePowChainsAgreeWithNoEngine(w: Wiring, cfg: Config, store: Store, req: AuthRequest,
                                          counters: string -> int, clk: Readings)
    requires w.engine.Some? && cfg.powEnabled && w.shouldProtect(req.originalURI) && Frozen(clk)
    requires var (token, sign) := w.extract(req.originalArgs);
             var c := Classify(w.lib, cfg, token, sign, req, clk.classify);
             var out := Evaluate(w.engine.value, "INPUT", RiskContext(w, req, token, sign, c, counters)).0;
             out.Decided? && out.decision.target.RequirePow?
    ensures var (token, sign) := w.extract(req.originalArgs);
            var c := Classify(w.lib, cfg, token, sign, req, clk.classify);
            Agree(cfg, store, c, VerifyGated(w, cfg, store, req, counters, clk),
                  VerifyGated(w.(engine := None), cfg, store, req, counters, clk))
  {
    var (token, sign) := w.extract(req.originalArgs);
    var c := Classify(w.lib, cfg, token, sign, req, clk.classify);
    var (out, st) := Evaluate(w.engine.value, "INPUT", RiskContext(w, req, token, sign, c, counters));
    RequirePowAgreesWithPowOnly(w, cfg, store, out.decision, st.trace, st.marks, req, token, sign, clk);
  }

  // An INPUT chain without rules answers with its policy.
  lemma BareInputChain(policy: Policy, ctx: RequestContext)
    ensures Evaluate(map["INPUT" := Chain([], policy)], "INPUT", ctx).0
         == Decided(Decision(policy.target, policy.status, policy.limitRate, policy.reason, "INPUT", "policy"))
  {
    var chains := map["INPUT" := Chain([], policy)];
    assert FindKey(chains.Keys, "INPUT") == Some("INPUT");
    var entered := START.(visited := multiset{Upper("INPUT")});
    assert START.visited + multiset{Upper("INPUT")} == entered.visited;
    assert EvalChain(chains, "INPUT", ctx, START) == EvalRules(chains, "INPUT", policy, [], ctx, entered);
  }

  // ------------------------------------------ what a request does to the store

  // How a validated token was used up, if at all.
  ghost predicate StoreStep(lib: Library, cfg: Config, s: UsageState, s': UsageState, c: Classification,
                            req: AuthRequest, token: string, sign: string, clk: Readings) {
    || s' == s
    || (c.status.Valid? && c.mode == GENERIC && c.payload.Some?
        && s' == ConsumeNext(s, GenericInput(lib, cfg, c.payload.value, req, token, sign, clk.charge), clk.wall).1)
    || (NeedsBinding(c)
        && s' == ConsumeNext(s, BindingInput(lib, cfg, c.payload.value, req, token, sign, clk.charge), clk.wall).1
        && Lookup(s, ComputeSignID(lib, c.payload.value, sign, IP_BOUND)) == Err(NotFound))
  }

  // The empty-IP token is bound to this request's address: recorded now, or
  // recorded before under a matching address.
  ghost predicate BoundHere(lib: Library, s: UsageState, s': UsageState, p: TokenPayload, sign: string, realIP: string) {
    var id := ComputeSignID(lib, p, sign, IP_BOUND);
    && id in s'.records
    && (if id in s.records then s' == s && (s.records[id].firstIP == "" || SameIP(lib, s.records[id].firstIP, realIP))
        else s'.records[id].firstIP == realIP)
  }

  lemma BindingEffect(lib: Library, cfg: Config, s: UsageState, p: TokenPayload, req: AuthRequest,
                      token: string, sign: string, clk: Readings)
    ensures var (denial, store') := BindEmptyIP(lib, cfg, Some(s), p, req, token, sign, clk);
            var id := ComputeSignID(lib, p, sign, IP_BOUND);
            && store'.Some?
            && (store'.value == s
                || (Lookup(s, id) == Err(NotFound)
                    && store'.value == ConsumeNext(s, BindingInput(lib, cfg, p, req, token, sign, clk.charge), clk.wall).1))
            && (if denial.None? then BoundHere(lib, s, store'.value, p, sign, req.realIP) else store'.value == s)
            && (denial.Some? && !cfg.dryRun ==> !denial.value.allowed)
  {
  }

  ghost predicate NeedsBinding(c: Classification) {
    c.status.Valid? && c.mode == IP_BOUND && c.payload.Some? && c.payload.value.ip == ""
  }

  // Without a rule engine, unprotected paths are let through unchecked.
  predicate Enforced(w: Wiring, req: AuthRequest) {
    w.engine.Some? || w.shouldProtect(req.originalURI)
  }

  lemma FinalizeEffect(lib: Library, cfg: Config, s: UsageState, c: Classification, req: AuthRequest,
                       token: string, sign: string, clk: Readings)
    requires Frozen(clk) && c.status.Valid? && c.payload.Some? && c.mode == c.payload.value.mode && c.mode in {IP_BOUND, GENERIC}
    ensures var p := c.payload.value;
            var (res, store') := if c.mode == IP_BOUND then FinalizeIPBound(lib, cfg, Some(s), p, req, token, sign, clk)
                                 else FinalizeGeneric(lib, cfg, Some(s), p, req, token, sign, clk);
            && store'.Some? && StoreStep(lib, cfg, s, store'.value, c, req, token, sign, clk)
            && (res.allowed && !cfg.dryRun && NeedsBinding(c) ==> BoundHere(lib, s, store'.value, p, sign, req.realIP))
            && (NeedsBinding(c) && store'.value != s ==> res.allowed)
  {
    BindingEffect(lib, cfg, s, c.payload.value, req, token, sign, clk);
  }

  lemma PowOnlyEffect(lib: Library, cfg: Config, s: UsageState, req: AuthRequest, token: string, sign: string, clk: Readings)
    requires Frozen(clk)
    ensures var c := Classify(lib, cfg, token, sign, req, clk.classify);
            var (res, store') := VerifyPoWOnly(lib, cfg, Some(s), req, token, sign, c.payload, clk);
            && store'.Some? && StoreStep(lib, cfg, s, store'.value, c, req, token, sign, clk)
            && (res.allowed && !cfg.dryRun && NeedsBinding(c) ==>
                BoundHere(lib, s, store'.value, c.payload.value, sign, req.realIP))
            && (NeedsBinding(c) && store'.value != s ==> res.allowed)
  {
    var c := Classify(lib, cfg, token, sign, req, clk.classify);
    ClassifiedModes(lib, cfg, token, sign, req, clk.classify);
    if c.status.Valid? {
      ClassifiedValid(lib, cfg, req, token, sign, clk.classify);
      PowOnlyFinalizes(lib, cfg, Some(s), req, token, sign, c.payload.value, clk);
      FinalizeEffect(lib, cfg, s, c, req, token, sign, clk);
    } else {
      FaultsAgree(lib, cfg, Some(s), c, req, token, sign, clk);
    }
  }

  lemma ClassifiedValid(lib: Library, cfg: Config, req: AuthRequest, token: string, sign: string, now: int)
    requires Classify(lib, cfg, token, sign, req, now).status.Valid?
    ensures var c := Classify(lib, cfg, token, sign, req, now);
            && token != "" && sign != "" && |token| <= cfg.maxTokenLength && |sign| <= cfg.maxSignLength && c.payload.Some?
            && ValidateTokenForMode(lib, cfg, c.payload.value, c.payload.value.mode, req.originalURI, sign, now).None?
            && (c.mode == IP_BOUND ==> req.realIP != "")
  {
  }

  lemma ChargeEffect(lib: Library, cfg: Config, s: UsageState, c: Classification, req: AuthRequest,
                     token: string, sign: string, clk: Readings)
    ensures var (charge, store') := ChargeForRiskAllow(lib, cfg, Some(s), c, req, token, sign, clk);
            && store'.Some? && StoreStep(lib, cfg, s, store'.value, c, req, token, sign, clk)
            && (charge.Err? && !cfg.dryRun ==> !charge.error.allowed)
            && (NeedsBinding(c) ==>
                  if charge.Ok? then BoundHere(lib, s, store'.value, c.payload.value, sign, req.realIP) else store'.value == s)
  {
    if c.payload.Some? { BindingEffect(lib, cfg, s, c.payload.value, req, token, sign, clk); }
  }

  lemma RiskEffect(w: Wiring, cfg: Config, s: UsageState, d: Decision, trace: seq<TraceStep>, marks: seq<string>,
                   c: Classification, req: AuthRequest, token: string, sign: string, clk: Readings)
    ensures var (res, store') := ActOnDecision(w, cfg, Some(s), d, trace, marks, c, req, token, sign, clk);
            && store'.Some? && StoreStep(w.lib, cfg, s, store'.value, c, req, token, sign, clk)
            && (res.None? ==> store'.value == s)
            && (res.Some? && res.value.allowed && !cfg.dryRun && NeedsBinding(c) ==>
                BoundHere(w.lib, s, store'.value, c.payload.value, sign, req.realIP))
            && (NeedsBinding(c) && store'.value != s ==> res.Some? && res.value.allowed)
  {
    ChargeEffect(w.lib, cfg, s, c, req, token, sign, clk);
    var (res, store') := ActOnDecision(w, cfg, Some(s), d, trace, marks, c, req, token, sign, clk);
    var (charge, charged) := ChargeForRiskAllow(w.lib, cfg, Some(s), c, req, token, sign, clk);
    match d.target {
      case Accept | RateLimit =>
        assert store' == charged && (charge.Err? ==> res == Some(charge.error));
      case RequirePow =>
        if c.status.Valid? { assert store' == charged && (charge.Err? ==> res == Some(charge.error)); }
        else { assert store' == Some(s); }
      case _ => assert store' == Some(s);
    }
  }

  lemma GatedEffect(w: Wiring, cfg: Config, s: UsageState, req: AuthRequest, counters: string -> int, clk: Readings)
    requires cfg.powEnabled && Frozen(clk)
    ensures var (token, sign) := w.extract(req.originalArgs);
            var c := Classify(w.lib, cfg, token, sign, req, clk.classify);
            var (res, store') := VerifyGated(w, cfg, Some(s), req, counters, clk);
            && store'.Some? && StoreStep(w.lib, cfg, s, store'.value, c, req, token, sign, clk)
            && (res.allowed && !cfg.dryRun && NeedsBinding(c) && Enforced(w, req) ==>
                BoundHere(w.lib, s, store'.value, c.payload.value, sign, req.realIP))
            && (NeedsBinding(c) && store'.value != s ==> res.allowed && Enforced(w, req))
  {
    var (token, sign) := w.extract(req.originalArgs);
    var c := Classify(w.lib, cfg, token, sign, req, clk.classify);
    PowOnlyEffect(w.lib, cfg, s, req, token, sign, clk);
    if w.engine.Some? {
      var (out, st) := Evaluate(w.engine.value, "INPUT", RiskContext(w, req, token, sign, c, counters));
      if out.Decided? { RiskEffect(w, cfg, s, out.decision, st.trace, st.marks, c, req, token, sign, clk); }
    }
  }

  // Every request, on whichever path, changes the store by at most one
  // consume of its own validated token, and with dry-run off never admits an
  // empty-IP token without a binding that matches its address.
  lemma VerifyEffect(w: Wiring, cfg: Config, s: UsageState, req: AuthRequest, counters: string -> int, blocked: bool, clk: Readings)
    requires cfg.powEnabled && !cfg.bypassAll && Frozen(clk)
    ensures var (token, sign) := w.extract(req.originalArgs);
            var c := Classify(w.lib, cfg, token, sign, req, clk.classify);
            var (res, store') := Verify(w, cfg, Some(s), req, counters, blocked, clk);
            && store'.Some? && StoreStep(w.lib, cfg, s, store'.value, c, req, token, sign, clk)
            && (res.allowed && !cfg.dryRun && NeedsBinding(c) && Enforced(w, req) ==>
                BoundHere(w.lib, s, store'.value, c.payload.value, sign, req.realIP))
            && (NeedsBinding(c) && store'.value != s ==> res.allowed && Enforced(w, req))
  {
    GatedEffect(w, cfg, s, req, counters, clk);
  }
}
