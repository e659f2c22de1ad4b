// Who gets in and who does not, stated on the fields of token, request, store
// and rule decision (internal/auth): what a good token is, what each decision
// of the rules answers, and when a whole request is admitted.
module Verdicts {
  import opened Prelude
  import opened Token
  import opened UsageStores
  import opened RuleChains
  import opened Auth
  import Decimal
  import Difficulty

  // --------------------------------------------------------- a good token

  // The sign is the digest of the canonical text, in 64 hex digits.
  ghost predicate RightSign(lib: Library, p: TokenPayload, sign: string) {
    && |sign| == 64
    && (forall i :: 0 <= i < 64 ==> '0' <= sign[i] <= '9' || 'a' <= sign[i] <= 'f' || 'A' <= sign[i] <= 'F')
    && lib.sha256Hex(BuildCanonicalInput(p)) != ""
    && lib.equalFold(lib.sha256Hex(BuildCanonicalInput(p)), sign)
  }

  // The digest, read as a number, starts with as many zero bits as the
  // payload names.
  ghost predicate WorkDone(lib: Library, p: TokenPayload) {
    var digest := lib.sha256(BuildCanonicalInput(p));
    p.difficulty <= 0
    || (p.difficulty <= 8 * |digest| && Difficulty.BigEndian(digest) < Difficulty.Pow2(8 * |digest| - p.difficulty))
  }

  // The settings of the token's mode.
  function SettingsOf(cfg: Config, p: TokenPayload): ModeSettings {
    if p.mode == "ip_bound" then cfg.ipBound else cfg.generic
  }

  function OptionsOf(cfg: Config, p: TokenPayload): ValidatorOptions {
    var m := SettingsOf(cfg, p);
    ValidatorOptions(cfg.allowedSalts, cfg.allowEmptySalt, [p.mode], m.minDifficulty, m.maxDifficulty, cfg.algorithm)
  }

  ghost predicate Timely(cfg: Config, p: TokenPayload, now: int) {
    && now < p.expiresAt && p.timestamp <= now + 60
    && (SettingsOf(cfg, p).maxTTL > 0 ==> p.expiresAt - p.timestamp <= SettingsOf(cfg, p).maxTTL)
  }

  ghost predicate GoodToken(lib: Library, cfg: Config, p: TokenPayload, path: string, sign: string, now: int) {
    && (p.mode == "ip_bound" || p.mode == "generic") && SettingsOf(cfg, p).enabled
    && WellFormed(lib, p, Some(OptionsOf(cfg, p)))
    && p.path == path && Timely(cfg, p, now) && RightSign(lib, p, sign) && WorkDone(lib, p)
  }

  lemma SignPassesIff(lib: Library, p: TokenPayload, sign: string)
    ensures CheckSignAndDifficulty(lib, p, sign).None? <==> RightSign(lib, p, sign) && WorkDone(lib, p)
  {
    var digest := lib.sha256(BuildCanonicalInput(p));
    Difficulty.MeetsByBytes(digest, p.difficulty);
    if |sign| == 64 {
      assert sign != "";
      assert (forall c :: c in sign ==> IsHexDigit(c)) <==> (forall i :: 0 <= i < 64 ==> IsHexDigit(sign[i]));
    }
  }

  // A token passes exactly when it is good.
  lemma TokenPassesIff(lib: Library, cfg: Config, p: TokenPayload, path: string, sign: string, now: int)
    ensures ValidateTokenForMode(lib, cfg, p, p.mode, path, sign, now).None? <==> GoodToken(lib, cfg, p, path, sign, now)
  {
    PayloadPassesIff(lib, p, Some(OptionsOf(cfg, p)));
    SignPassesIff(lib, p, sign);
  }

  // A fault of the token that the reason names. Faults of path and times
  // share the reason malformed_token.
  ghost predicate TokenFault(lib: Library, cfg: Config, p: TokenPayload, path: string, sign: string, now: int, reason: Reason) {
    var known, o := p.mode == "ip_bound" || p.mode == "generic", OptionsOf(cfg, p);
    match reason
    case UnsupportedMode => !known
    case ModeDisabled => known && !SettingsOf(cfg, p).enabled
    case UnsupportedVersion => FieldFault(lib, p, o, PayloadError.UnsupportedVersion)
    case UnsupportedAlgorithm => FieldFault(lib, p, o, PayloadError.UnsupportedAlgorithm)
    case InvalidIP => FieldFault(lib, p, o, PayloadError.IPInvalid)
    case IPForbidden => FieldFault(lib, p, o, PayloadError.IPForbidden)
    case InvalidCounter => FieldFault(lib, p, o, PayloadError.CounterInvalid)
    case DifficultyTooLow => FieldFault(lib, p, o, PayloadError.DifficultyInvalid)
    case InvalidSalt => FieldFault(lib, p, o, PayloadError.SaltInvalid)
    case MalformedToken =>
      || FieldFault(lib, p, o, PathInvalid) || FieldFault(lib, p, o, PathTooLong)
      || FieldFault(lib, p, o, TimestampInvalid) || FieldFault(lib, p, o, ExpiryInvalid)
    case PathMismatch => p.path != path
    case Expired => p.expiresAt <= now
    case TTLTooLong => SettingsOf(cfg, p).maxTTL > 0 && p.expiresAt - p.timestamp > SettingsOf(cfg, p).maxTTL
    case TimestampFromFuture => p.timestamp > now + 60
    case InvalidSignFormat | SignMismatch => !RightSign(lib, p, sign)
    case DifficultyNotMet => RightSign(lib, p, sign) && !WorkDone(lib, p)
    case _ => false
  }

  lemma SignRefused(lib: Library, p: TokenPayload, sign: string)
    ensures var r := CheckSignAndDifficulty(lib, p, sign);
            r.Some? ==> if RightSign(lib, p, sign) then r.value.DifficultyNotMet? && !WorkDone(lib, p)
                        else r.value.InvalidSignFormat? || r.value.SignMismatch?
  {
    if |sign| == 64 {
      assert sign != "" && forall i :: 0 <= i < 64 ==> sign[i] in sign;
      assert (forall c :: c in sign ==> IsHexDigit(c)) <==> (forall i :: 0 <= i < 64 ==> IsHexDigit(sign[i]));
    }
    SignPassesIff(lib, p, sign);
  }

  lemma FieldRefused(lib: Library, cfg: Config, p: TokenPayload, path: string, sign: string, now: int, e: PayloadError)
    requires FieldFault(lib, p, OptionsOf(cfg, p), e) && !e.UnsupportedMode?
    ensures TokenFault(lib, cfg, p, path, sign, now, ReasonFromValidationError(e))
  {
  }

  lemma LaterRefused(lib: Library, cfg: Config, p: TokenPayload, path: string, sign: string, now: int)
    requires p.mode == "ip_bound" || p.mode == "generic"
    requires SettingsOf(cfg, p).enabled && ValidatePayload(lib, p, Some(OptionsOf(cfg, p))).None?
    ensures var r := ValidateTokenForMode(lib, cfg, p, p.mode, path, sign, now);
            r.Some? ==> TokenFault(lib, cfg, p, path, sign, now, r.value)
  {
    SignRefused(lib, p, sign);
    if p.path == path && CheckTime(p, SettingsOf(cfg, p).maxTTL, now).None? {
      assert ValidateTokenForMode(lib, cfg, p, p.mode, path, sign, now) == CheckSignAndDifficulty(lib, p, sign);
    }
  }

  // A refusal names a fault the token really has.
  lemma RefusalNamesAFault(lib: Library, cfg: Config, p: TokenPayload, path: string, sign: string, now: int)
    ensures var r := ValidateTokenForMode(lib, cfg, p, p.mode, path, sign, now);
            r.Some? ==> TokenFault(lib, cfg, p, path, sign, now, r.value)
  {
    var o := OptionsOf(cfg, p);
    var e := ValidatePayload(lib, p, Some(o));
    if (p.mode == "ip_bound" || p.mode == "generic") && SettingsOf(cfg, p).enabled {
      if e.Some? {
        ErrorNamesAFault(lib, p, o);
        FieldRefused(lib, cfg, p, path, sign, now, e.value);
        assert ValidateTokenForMode(lib, cfg, p, p.mode, path, sign, now) == Some(ReasonFromValidationError(e.value));
      } else {
        LaterRefused(lib, cfg, p, path, sign, now);
      }
    }
  }

  // ------------------------------------------------------ classification

  ghost predicate SameAddress(lib: Library, a: string, b: string) {
    && a != "" && b != ""
    && (lib.equalFold(a, b) || (lib.parseAddr(a).Some? && lib.parseAddr(b) == lib.parseAddr(a)))
  }

  // Token and sign are there, not too long, and the token decodes.
  ghost predicate Presented(lib: Library, cfg: Config, token: string, sign: string) {
    && 0 < |token| <= cfg.maxTokenLength && 0 < |sign| <= cfg.maxSignLength
    && lib.decodeToken(token).Some?
  }

  // An ip_bound token needs the address of the request, and its own one if
  // it names any.
  ghost predicate FromItsAddress(lib: Library, p: TokenPayload, realIP: string) {
    p.mode == "ip_bound" ==> realIP != "" && (p.ip == "" || SameAddress(lib, p.ip, realIP))
  }

  // What the rules and REQUIRE_POW are told about a token.
  lemma ClassifiedIff(lib: Library, cfg: Config, token: string, sign: string, req: AuthRequest, now: int)
    ensures var c := Classify(lib, cfg, token, sign, req, now);
            && (c.status.Missing? <==> token == "" || sign == "")
            && !c.status.UsedUp?
            && (if Presented(lib, cfg, token, sign)
                then
                  var p := lib.decodeToken(token).value;
                  var good := GoodToken(lib, cfg, p, req.originalURI, sign, now);
                  var known, m := p.mode == "ip_bound" || p.mode == "generic", SettingsOf(cfg, p);
                  && c.payload == Some(p) && c.mode == p.mode
                  && (c.status.Valid? <==> good && FromItsAddress(lib, p, req.realIP))
                  && (c.status.Unverifiable? <==> good && p.mode == "ip_bound" && req.realIP == "")
                  && (c.status.ModeDisabled? <==> known && !m.enabled)
                  && (c.status.Expired? <==> known && m.enabled && WellFormed(lib, p, Some(OptionsOf(cfg, p)))
                                             && p.path == req.originalURI && p.expiresAt <= now)
                else c.payload.None? && c.mode == "" && (c.status.Missing? || c.status.Invalid?))
  {
    if Presented(lib, cfg, token, sign) {
      var p := lib.decodeToken(token).value;
      TokenPassesIff(lib, cfg, p, req.originalURI, sign, now);
      PayloadPassesIff(lib, p, Some(OptionsOf(cfg, p)));
      StatusOfRefusal(lib, cfg, p, req.originalURI, sign, now);
    }
  }

  lemma StatusOfRefusal(lib: Library, cfg: Config, p: TokenPayload, path: string, sign: string, now: int)
    ensures var r := ValidateTokenForMode(lib, cfg, p, p.mode, path, sign, now);
            var known := p.mode == "ip_bound" || p.mode == "generic";
            && (r == Some(Reason.ModeDisabled) <==> known && !SettingsOf(cfg, p).enabled)
            && (r == Some(Reason.Expired) <==> known && SettingsOf(cfg, p).enabled && p.path == path && p.expiresAt <= now
                                               && WellFormed(lib, p, Some(OptionsOf(cfg, p))))
  {
    PayloadPassesIff(lib, p, Some(OptionsOf(cfg, p)));
    if ValidatePayload(lib, p, Some(OptionsOf(cfg, p))).Some? { NotTimeOrMode(ValidatePayload(lib, p, Some(OptionsOf(cfg, p))).value); }
  }

  lemma NotTimeOrMode(e: PayloadError)
    ensures ReasonFromValidationError(e) != Reason.ModeDisabled && ReasonFromValidationError(e) != Reason.Expired
  {
  }

  // ---------------------------------------------------- what a use costs

  function UsesOf(s: UsageState, id: string): int {
    if id in s.records then s.records[id].uses else 0
  }

  ghost predicate QuotaLeft(lib: Library, cfg: Config, store: Store, p: TokenPayload, sign: string) {
    store.Some? && !store.value.closed && UsesOf(store.value, lib.sha256Hex(SignIDPreimage(p, sign, "generic"))) < cfg.maxUses
  }

  // No record yet, or one of this address (or of none).
  ghost predicate BindingOpen(lib: Library, store: Store, p: TokenPayload, sign: string, realIP: string) {
    var id := lib.sha256Hex(SignIDPreimage(p, sign, "ip_bound"));
    store.None?
    || (!store.value.closed
        && (id in store.value.records ==> var first := store.value.records[id].firstIP; first == "" || SameAddress(lib, first, realIP)))
  }

  // A good token can be used up by this request.
  ghost predicate Payable(lib: Library, cfg: Config, store: Store, p: TokenPayload, req: AuthRequest, sign: string) {
    if p.mode == "generic" then QuotaLeft(lib, cfg, store, p, sign)
    else FromItsAddress(lib, p, req.realIP) && (p.ip == "" ==> BindingOpen(lib, store, p, sign, req.realIP))
  }

  ghost predicate StorageFault(store: Store, p: TokenPayload) {
    if p.mode == "generic" then store.None? || store.value.closed else p.ip == "" && store.Some? && store.value.closed
  }

  predicate IsPowReason(reason: Reason) {
    reason.IPBoundValid? || reason.GenericValid?
  }

  lemma BindingIff(lib: Library, cfg: Config, store: Store, p: TokenPayload, req: AuthRequest, token: string, sign: string, clk: Readings)
    ensures var denial := BindEmptyIP(lib, cfg, store, p, req, token, sign, clk).0;
            && (denial.None? <==> BindingOpen(lib, store, p, sign, req.realIP))
            && (denial.Some? ==> var res := denial.value;
                if cfg.dryRun then res.allowed && res.httpStatus == 200 && res.reason.DryRunAllow?
                else !res.allowed && res.httpStatus == (if store.value.closed then 500 else 403)
                     && res.reason == if store.value.closed then StorageError else IPMismatch)
  {
  }

  // Using up a token: admitted exactly when it is payable, in dry-run mode
  // unless the address of the request is missing.
  ghost predicate FinishedRight(cfg: Config, store: Store, p: TokenPayload, req: AuthRequest, payable: bool, res: AuthResult) {
    var lost := p.mode == "ip_bound" && req.realIP == "";
    && (IsPowReason(res.reason) <==> payable) && !res.reason.RequirePowPass?
    && (res.allowed <==> payable || (cfg.dryRun && !lost))
    && res.httpStatus == if res.allowed then 200 else if lost || StorageFault(store, p) then 500 else 403
  }

  lemma BoundAdmitsIff(lib: Library, cfg: Config, store: Store, p: TokenPayload, req: AuthRequest,
                       token: string, sign: string, clk: Readings)
    requires p.mode == "ip_bound"
    ensures FinishedRight(cfg, store, p, req, Payable(lib, cfg, store, p, req, sign),
                          FinalizeIPBound(lib, cfg, store, p, req, token, sign, clk).0)
  {
    BindingIff(lib, cfg, store, p, req, token, sign, clk);
  }

  // Using a generic token once: refused at the cap without a change of the
  // count, otherwise counted unless it is a HEAD request that is free; no
  // other record moves.
  lemma QuotaIsCharged(lib: Library, cfg: Config, store: Store, p: TokenPayload, req: AuthRequest,
                       token: string, sign: string, now: int, wall: int)
    ensures var (r, store') := ConsumeGenericQuota(lib, cfg, store, p, req, token, sign, now, wall);
            var id := lib.sha256Hex(SignIDPreimage(p, sign, "generic"));
            && (r.None? <==> store.None? || store.value.closed) && (r.None? ==> store' == store)
            && (r.Some? ==>
                  && (r.value.allowed <==> UsesOf(store.value, id) < cfg.maxUses) && r.value.maxUses == cfg.maxUses
                  && r.value.uses == UsesOf(store.value, id)
                                     + (if r.value.allowed && (req.originalMethod != "HEAD" || cfg.countHead) then 1 else 0)
                  && store'.Some? && !store'.value.closed && id in store'.value.records && UsesOf(store'.value, id) == r.value.uses
                  && (forall other :: other != id ==>
                        && (other in store'.value.records <==> other in store.value.records)
                        && (other in store.value.records ==> store'.value.records[other] == store.value.records[other])))
  {
  }

  lemma GenericAdmitsIff(lib: Library, cfg: Config, store: Store, p: TokenPayload, req: AuthRequest,
                         token: string, sign: string, clk: Readings)
    requires p.mode == "generic"
    ensures FinishedRight(cfg, store, p, req, Payable(lib, cfg, store, p, req, sign),
                          FinalizeGeneric(lib, cfg, store, p, req, token, sign, clk).0)
  {
    QuotaIsCharged(lib, cfg, store, p, req, token, sign, clk.verify, clk.wall);
    var r := ConsumeGenericQuota(lib, cfg, store, p, req, token, sign, clk.verify, clk.wall).0;
    assert QuotaLeft(lib, cfg, store, p, sign) <==> r.Some? && r.value.allowed;
  }

  // A refusal of the PoW-only flow, before the token is used.
  predicate RefusedFlat(cfg: Config, res: AuthResult) {
    && !IsPowReason(res.reason) && !res.reason.RequirePowPass?
    && res.allowed == cfg.dryRun && res.httpStatus == if cfg.dryRun then 200 else 403
  }

  lemma NotPresentedRefused(lib: Library, cfg: Config, store: Store, req: AuthRequest, token: string, sign: string, clk: Readings)
    requires !Presented(lib, cfg, token, sign)
    ensures RefusedFlat(cfg, VerifyPoWOnly(lib, cfg, store, req, token, sign, None, clk).0)
  {
  }

  lemma FaultRefused(cfg: Config, reason: Reason, mode: string)
    requires StatusForReason(reason) == 403
    ensures RefusedFlat(cfg, MaybeDryRun(cfg, DenyMode(reason, mode)))
  {
  }

  // The PoW-only flow admits exactly the presented, good and payable tokens.
  lemma PowOnlyAdmitsIff(lib: Library, cfg: Config, store: Store, req: AuthRequest, token: string, sign: string, clk: Readings)
    ensures var res := VerifyPoWOnly(lib, cfg, store, req, token, sign, Classify(lib, cfg, token, sign, req, clk.classify).payload, clk).0;
            if Presented(lib, cfg, token, sign) && GoodToken(lib, cfg, lib.decodeToken(token).value, req.originalURI, sign, clk.verify)
            then var p := lib.decodeToken(token).value; FinishedRight(cfg, store, p, req, Payable(lib, cfg, store, p, req, sign), res)
            else RefusedFlat(cfg, res)
  {
    ClassifiedIff(lib, cfg, token, sign, req, clk.classify);
    if Presented(lib, cfg, token, sign) {
      var p := lib.decodeToken(token).value;
      TokenPassesIff(lib, cfg, p, req.originalURI, sign, clk.verify);
      var r := ValidateTokenForMode(lib, cfg, p, p.mode, req.originalURI, sign, clk.verify);
      if r.Some? {
        PowOnlyRefuses(lib, cfg, store, req, token, sign, p, r.value, clk);
        FaultRefused(cfg, r.value, p.mode);
      } else {
        PowOnlyFinalizes(lib, cfg, store, req, token, sign, p, clk);
        if p.mode == "generic" { GenericAdmitsIff(lib, cfg, store, p, req, token, sign, clk); }
        else { BoundAdmitsIff(lib, cfg, store, p, req, token, sign, clk); }
      }
    } else {
      NotPresentedRefused(lib, cfg, store, req, token, sign, clk);
    }
  }

  // The record a use leaves behind: a new one with the facts of its first
  // use, or the old one with count, address and time brought up to date.
  ghost predicate RecordsUse(rec: UsageRecord, before: Records, input: ConsumeInput, now: int, uses: int) {
    if input.id in before then
      var was := before[input.id];
      rec == was.(uses := uses, lastIP := input.ip, updatedAt := now,
                  userAgent := if was.userAgent != "" then was.userAgent else input.userAgent)
    else rec == UsageRecord(input.id, input.mode, input.path, input.sign, input.tokenHash, uses, input.maxUses,
                            input.ip, input.ip, input.userAgent, input.expiresAt, now, now)
  }

  lemma UseIsRecorded(lib: Library, cfg: Config, s: UsageState, p: TokenPayload, req: AuthRequest,
                      token: string, sign: string, now: int, wall: int, mode: string)
    requires !s.closed && (mode == "generic" || mode == "ip_bound") && token != "" && now != 0
    requires UsesOf(s, lib.sha256Hex(SignIDPreimage(p, sign, mode))) < if mode == "generic" then cfg.maxUses else 1
    ensures var input := if mode == "generic" then GenericInput(lib, cfg, p, req, token, sign, now) else BindingInput(lib, cfg, p, req, token, sign, now);
            var free := mode == "ip_bound" || (req.originalMethod == "HEAD" && !cfg.countHead);
            && input == ConsumeInput(lib.sha256Hex(SignIDPreimage(p, sign, mode)), mode, p.path, sign, lib.sha256Hex(token), p.expiresAt,
                                     if mode == "generic" then cfg.maxUses else 1, req.realIP, req.userAgent, now,
                                     if cfg.gracePeriod > 0 then cfg.gracePeriod / 1_000_000_000 else 0, free)
            && var s' := ConsumeNext(s, input, wall).1;
               input.id in s'.records
               && RecordsUse(s'.records[input.id], s.records, input, now, UsesOf(s, input.id) + if free then 0 else 1)
  {
  }

  // ----------------------------------------- what a decision of the rules answers

  // The rule's chain, name, trace and marks are passed on.
  predicate Names(a: AuthResult, d: Decision, trace: seq<TraceStep>, marks: seq<string>) {
    a.riskChain == d.chain && a.riskRule == d.ruleName && a.riskTrace == trace && a.riskMarks == marks
  }

  // REJECT and TOO_MANY refuse under every configuration, dry-run included,
  // whatever the token, and leave the store alone. The status of a REJECT is
  // looked up by its reason text; the status of the rule is never used.
  lemma RejectRefuses(w: Wiring, cfg: Config, store: Store, d: Decision, trace: seq<TraceStep>, marks: seq<string>,
                      c: Classification, req: AuthRequest, token: string, sign: string, clk: Readings)
    requires d.target.Reject? || d.target.TooMany?
    ensures var (r, store') := ActOnDecision(w, cfg, store, d, trace, marks, c, req, token, sign, clk);
            && r.Some? && store' == store
            && var a := r.value;
               && !a.allowed && a.decision == Denied && Names(a, d, trace, marks) && a.mode == c.mode && a.errorHeader == a.reason
               && a.reason == (if d.reason != "" then FromRule(d.reason) else if d.target.Reject? then RiskReject else RateLimited)
               && a.httpStatus
                  == if d.target.TooMany? then 429
                     else if d.reason in {"not_protected", "ip_bound_valid", "generic_valid", "dry_run_allow", "bypass_all",
                                          "pow_disabled", "risk_accept", "risk_rate_limit", "require_pow_pass"} then 200
                     else if d.reason in {"rate_limited", "risk_too_many", "ip_pending_blocked"} then 429
                     else if d.reason in {"storage_error", "internal_error", "missing_headers", "missing_real_ip"} then 500
                     else 403
  {
  }

  // An allow on the strength of a valid token owes the token's use.
  predicate Owes(c: Classification) {
    c.status.Valid? && c.payload.Some? && (c.mode == "generic" || (c.mode == "ip_bound" && c.payload.value.ip == ""))
  }

  ghost predicate Paid(lib: Library, cfg: Config, store: Store, c: Classification, req: AuthRequest, sign: string) {
    Owes(c) ==> if c.mode == "generic" then QuotaLeft(lib, cfg, store, c.payload.value, sign)
                else BindingOpen(lib, store, c.payload.value, sign, req.realIP)
  }

  // The refusal of a use that could not be paid.
  ghost predicate Unpaid(cfg: Config, store: Store, c: Classification, a: AuthResult) {
    var down := store.None? || store.value.closed;
    if cfg.dryRun && !(c.mode == "generic" && down)
    then a.allowed && a.httpStatus == 200 && a.reason.DryRunAllow?
    else && !a.allowed && a.httpStatus == (if down then 500 else 403)
         && a.reason == if down then StorageError else if c.mode == "generic" then Reason.UsedUp else IPMismatch
  }

  lemma ChargeIff(lib: Library, cfg: Config, store: Store, c: Classification, req: AuthRequest,
                  token: string, sign: string, clk: Readings)
    ensures var (charge, store') := ChargeForRiskAllow(lib, cfg, store, c, req, token, sign, clk);
            && (charge.Ok? <==> Paid(lib, cfg, store, c, req, sign))
            && (!Owes(c) ==> store' == store)
            && (charge.Err? ==> Unpaid(cfg, store, c, charge.error))
            && (charge.Ok? && !(Owes(c) && c.mode == "generic") ==> charge.value == Charge("", 0, 0))
            && (charge.Ok? && Owes(c) && c.mode == "generic" ==>
                  var id := lib.sha256Hex(SignIDPreimage(c.payload.value, sign, "generic"));
                  charge.value == Charge(id, UsesOf(store'.value, id), cfg.maxUses))
  {
    if Owes(c) {
      var p := c.payload.value;
      if c.mode == "generic" {
        ChargeGenericIff(lib, cfg, store, c, req, token, sign, clk);
      } else {
        BindingIff(lib, cfg, store, p, req, token, sign, clk);
      }
    }
  }

  lemma ChargeGenericIff(lib: Library, cfg: Config, store: Store, c: Classification, req: AuthRequest,
                         token: string, sign: string, clk: Readings)
    requires Owes(c) && c.mode == "generic"
    ensures var (charge, store') := ChargeForRiskAllow(lib, cfg, store, c, req, token, sign, clk);
            var id := lib.sha256Hex(SignIDPreimage(c.payload.value, sign, "generic"));
            && (charge.Ok? <==> QuotaLeft(lib, cfg, store, c.payload.value, sign))
            && (charge.Ok? ==> store'.Some? && charge.value == Charge(id, UsesOf(store'.value, id), cfg.maxUses))
            && (charge.Err? ==> Unpaid(cfg, store, c, charge.error))
  {
    var p := c.payload.value;
    QuotaIsCharged(lib, cfg, store, p, req, token, sign, clk.charge, clk.wall);
    var r := ConsumeGenericQuota(lib, cfg, store, p, req, token, sign, clk.charge, clk.wall).0;
    assert QuotaLeft(lib, cfg, store, p, sign) <==> r.Some? && r.value.allowed;
  }

  // The id and the counts of the use that was charged, if any.
  ghost predicate Reports(lib: Library, cfg: Config, c: Classification, sign: string, store': Store, a: AuthResult) {
    if Owes(c) && c.mode == "generic" then
      && a.signID == lib.sha256Hex(SignIDPreimage(c.payload.value, sign, "generic")) && store'.Some?
      && a.uses == UsesOf(store'.value, a.signID) && a.maxUses == cfg.maxUses
    else a.signID == "" && a.uses == 0 && a.maxUses == 0
  }

  lemma AcceptOfCharged(w: Wiring, cfg: Config, store: Store, d: Decision, trace: seq<TraceStep>, marks: seq<string>,
                        c: Classification, req: AuthRequest, token: string, sign: string, clk: Readings, charge: Charge)
    requires ChargeForRiskAllow(w.lib, cfg, store, c, req, token, sign, clk).0 == Ok(charge)
    ensures var (r, store') := ActOnAccept(w, cfg, store, d, trace, marks, c, req, token, sign, clk);
            && r.Some? && store' == ChargeForRiskAllow(w.lib, cfg, store, c, req, token, sign, clk).1
            && var a := r.value;
               && a.allowed && a.httpStatus == 200 && a.limitRate == d.limitRate && a.mode == c.mode && Names(a, d, trace, marks)
               && a.reason == (if d.reason != "" then FromRule(d.reason) else RiskAccept)
               && Charge(a.signID, a.uses, a.maxUses) == charge
               && a.decision == if (c.mode != "" && IsVerifiedReason(RuleReason(d.reason, RiskAccept))) || d.limitRate == "" || d.limitRate == "0"
                                then Verified
                                else if IsVerySlowRate(d.limitRate) then UnverifiedVerySlow else UnverifiedSlow
  {
  }

  lemma AcceptOfRefused(w: Wiring, cfg: Config, store: Store, d: Decision, trace: seq<TraceStep>, marks: seq<string>,
                        c: Classification, req: AuthRequest, token: string, sign: string, clk: Readings)
    requires ChargeForRiskAllow(w.lib, cfg, store, c, req, token, sign, clk).0.Err?
    ensures ActOnAccept(w, cfg, store, d, trace, marks, c, req, token, sign, clk).0
         == Some(ChargeForRiskAllow(w.lib, cfg, store, c, req, token, sign, clk).0.error)
  {
  }

  // ACCEPT and RATE_LIMIT admit with the rule's rate, unless the use of a
  // valid token is refused.
  lemma AcceptAdmitsIff(w: Wiring, cfg: Config, store: Store, d: Decision, trace: seq<TraceStep>, marks: seq<string>,
                        c: Classification, req: AuthRequest, token: string, sign: string, clk: Readings)
    requires d.target.Accept? || d.target.RateLimit?
    ensures var (r, store') := ActOnDecision(w, cfg, store, d, trace, marks, c, req, token, sign, clk);
            && r.Some?
            && var a := r.value;
               if Paid(w.lib, cfg, store, c, req, sign)
               then && a.allowed && a.httpStatus == 200 && a.limitRate == d.limitRate && a.mode == c.mode && Names(a, d, trace, marks)
                    && a.reason == (if d.reason != "" then FromRule(d.reason) else RiskAccept)
                    && Reports(w.lib, cfg, c, sign, store', a)
               else Unpaid(cfg, store, c, a)
  {
    ChargeIff(w.lib, cfg, store, c, req, token, sign, clk);
    var charge := ChargeForRiskAllow(w.lib, cfg, store, c, req, token, sign, clk).0;
    assert ActOnDecision(w, cfg, store, d, trace, marks, c, req, token, sign, clk)
        == ActOnAccept(w, cfg, store, d, trace, marks, c, req, token, sign, clk);
    if charge.Ok? {
      AcceptOfCharged(w, cfg, store, d, trace, marks, c, req, token, sign, clk, charge.value);
    } else {
      AcceptOfRefused(w, cfg, store, d, trace, marks, c, req, token, sign, clk);
    }
  }

  // REQUIRE_POW admits exactly the valid tokens whose use is paid; every
  // other status has its own refusal, also under dry-run.
  lemma RequirePowAdmitsIff(w: Wiring, cfg: Config, store: Store, d: Decision, trace: seq<TraceStep>, marks: seq<string>,
                            c: Classification, req: AuthRequest, token: string, sign: string, clk: Readings)
    requires d.target.RequirePow?
    ensures var (r, store') := ActOnDecision(w, cfg, store, d, trace, marks, c, req, token, sign, clk);
            && r.Some?
            && var a := r.value;
               if c.status.Valid? then
                 if Paid(w.lib, cfg, store, c, req, sign) then a.allowed && a.httpStatus == 200 && a.reason.RequirePowPass? && a.mode == c.mode && Reports(w.lib, cfg, c, sign, store', a)
                 else Unpaid(cfg, store, c, a)
               else && !a.allowed && store' == store
                    && (a.httpStatus, a.reason) == match c.status
                       case Missing => (403, MissingTokenOrSign)
                       case Unverifiable => (500, MissingRealIP)
                       case Expired => (403, Reason.Expired)
                       case UsedUp => (403, Reason.UsedUp)
                       case ModeDisabled => (403, Reason.ModeDisabled)
                       case _ => (403, SignMismatch)
  {
    if c.status.Valid? { ChargeIff(w.lib, cfg, store, c, req, token, sign, clk); }
  }

  // A rule's own status is never sent, and a REJECT whose reason is the text
  // of an admission is answered with 200.
  lemma RuleStatusIsUnused(w: Wiring, cfg: Config, store: Store, d: Decision, trace: seq<TraceStep>, marks: seq<string>,
                           c: Classification, req: AuthRequest, token: string, sign: string, clk: Readings, status: int)
    ensures ActOnDecision(w, cfg, store, d.(status := status), trace, marks, c, req, token, sign, clk)
         == ActOnDecision(w, cfg, store, d, trace, marks, c, req, token, sign, clk)
  {
    if d.target.Accept? || d.target.RateLimit? {
      assert ActOnAccept(w, cfg, store, d.(status := status), trace, marks, c, req, token, sign, clk)
          == ActOnAccept(w, cfg, store, d, trace, marks, c, req, token, sign, clk);
    }
  }

  lemma RejectCanAnswer200(w: Wiring, cfg: Config, store: Store, c: Classification, req: AuthRequest,
                           token: string, sign: string, clk: Readings)
    ensures var a := ActOnDecision(w, cfg, store, Decision(Reject, 403, "", "not_protected", "INPUT", "r"), [], [], c, req, token, sign, clk).0;
            a.Some? && !a.value.allowed && a.value.httpStatus == 200
  {
    RejectRefuses(w, cfg, store, Decision(Reject, 403, "", "not_protected", "INPUT", "r"), [], [], c, req, token, sign, clk);
  }

  // ------------------------------------------------------- one whole request

  predicate RangeAt(args: string, i: int) {
    0 <= i <= |args| - 6 && Lower(args)[i..i + 6] == "range="
  }

  // What the rules get to see of a request.
  lemma RulesSeeTheRequest(w: Wiring, req: AuthRequest, token: string, sign: string, c: Classification, counters: string -> int)
    ensures var ctx := RiskContext(w, req, token, sign, c, counters);
            && ctx.path == req.originalURI && ctx.ip == req.realIP && ctx.method_ == req.originalMethod
            && ctx.args == req.originalArgs && ctx.userAgent == req.userAgent
            && (ctx.hasToken <==> token != "") && (ctx.hasSign <==> sign != "")
            && ctx.powStatus == c.status && ctx.powMode == c.mode && ctx.counters == counters
            && (ctx.isProtected <==> w.shouldProtect(req.originalURI))
            && (ctx.isRangeRequest <==>
                  || w.lib.equalFold(req.originalMethod, "HEAD") || req.originalRange != ""
                  || exists i :: RangeAt(req.originalArgs, i))
  {
    var args := req.originalArgs;
    if ContainsRangeMarker(args) {
      var i :| 0 <= i <= |args| && HasPrefix(Lower(args)[i..], "range=");
      assert Lower(args)[i..i + 6] == Lower(args)[i..][..6] == "range=";
      assert RangeAt(args, i);
    }
    if i :| RangeAt(args, i) {
      assert Lower(args)[i..][..6] == Lower(args)[i..i + 6];
    }
  }

  // Token and sign of a request, and what is known of them; nothing when
  // proof of work is off.
  ghost function TokenOf(w: Wiring, cfg: Config, req: AuthRequest): (string, string) {
    if cfg.powEnabled then w.extract(req.originalArgs) else ("", "")
  }

  ghost function ClassOf(w: Wiring, cfg: Config, req: AuthRequest, now: int): Classification {
    var (token, sign) := TokenOf(w, cfg, req);
    if cfg.powEnabled then Classify(w.lib, cfg, token, sign, req, now) else Classification(None, PowStatus.Missing, "")
  }

  // The decision of the rules on this request, if there is one to act on.
  ghost function Ruling(w: Wiring, cfg: Config, req: AuthRequest, counters: string -> int, now: int): Option<Decision> {
    if w.engine.None? then None
    else
      var (token, sign) := TokenOf(w, cfg, req);
      var out := Evaluate(w.engine.value, "INPUT", RiskContext(w, req, token, sign, ClassOf(w, cfg, req, now), counters)).0;
      if out.Decided? && IsTerminal(out.decision.target) then Some(out.decision) else None
  }

  // Does this request get in, with dry-run off?
  ghost predicate Admitted(w: Wiring, cfg: Config, store: Store, req: AuthRequest, counters: string -> int, blocked: bool, clk: Readings) {
    if cfg.bypassAll then true
    else if req.originalURI == "" || blocked then false
    else
      var (token, sign) := TokenOf(w, cfg, req);
      var c := ClassOf(w, cfg, req, clk.classify);
      match Ruling(w, cfg, req, counters, clk.classify)
      case Some(d) =>
        if d.target.Accept? || d.target.RateLimit? then Paid(w.lib, cfg, store, c, req, sign)
        else d.target.RequirePow? && c.status.Valid? && Paid(w.lib, cfg, store, c, req, sign)
      case None =>
        || !cfg.powEnabled || (w.engine.None? && !w.shouldProtect(req.originalURI))
        || (Presented(w.lib, cfg, token, sign)
            && var p := w.lib.decodeToken(token).value;
               GoodToken(w.lib, cfg, p, req.originalURI, sign, clk.verify) && Payable(w.lib, cfg, store, p, req, sign))
  }

  ghost function ActsOn(w: Wiring, cfg: Config, store: Store, d: Decision, req: AuthRequest, counters: string -> int, clk: Readings): (Option<AuthResult>, Store)
    requires w.engine.Some?
  {
    var (token, sign) := TokenOf(w, cfg, req);
    var c := ClassOf(w, cfg, req, clk.classify);
    var st := Evaluate(w.engine.value, "INPUT", RiskContext(w, req, token, sign, c, counters)).1;
    ActOnDecision(w, cfg, store, d, st.trace, st.marks, c, req, token, sign, clk)
  }

  // Past the gates: the rules' decision if there is one, else the branch of
  // the configuration.
  lemma GatedAnswer(w: Wiring, cfg: Config, store: Store, req: AuthRequest, counters: string -> int, clk: Readings)
    ensures var d := Ruling(w, cfg, req, counters, clk.classify);
            var (token, sign) := TokenOf(w, cfg, req);
            var c := ClassOf(w, cfg, req, clk.classify);
            && (d.Some? ==>
                  var (a, store') := ActsOn(w, cfg, store, d.value, req, counters, clk);
                  a.Some? && VerifyGated(w, cfg, store, req, counters, clk) == (a.value, store'))
            && (d.None? ==>
                  VerifyGated(w, cfg, store, req, counters, clk)
                  == if !cfg.powEnabled then (AllowDecision(Reason.PowDisabled, "", PowOff), store)
                     else if w.engine.None? && !w.shouldProtect(req.originalURI)
                     then (AllowDecision(Reason.NotProtected, "", NotProtectedPath), store)
                     else VerifyPoWOnly(w.lib, cfg, store, req, token, sign, c.payload, clk))
  {
  }

  // The gates in front of everything else, in this order.
  lemma GatesAnswer(w: Wiring, cfg: Config, store: Store, req: AuthRequest, counters: string -> int, blocked: bool, clk: Readings)
    requires cfg.bypassAll || req.originalURI == "" || blocked
    ensures var (res, store') := Auth.Verify(w, cfg, store, req, counters, blocked, clk);
            && store' == store && (res.allowed <==> cfg.bypassAll)
            && (res.httpStatus, res.reason, res.decision)
               == if cfg.bypassAll then (200, Reason.BypassAll, Bypass)
                  else (if req.originalURI == "" then 500 else 429, if req.originalURI == "" then MissingHeaders else IPPendingBlocked, Denied)
  {
  }

  // With dry-run off, a request is admitted exactly in the listed cases,
  // whatever the clock does in between.
  lemma VerifyAdmitsIff(w: Wiring, cfg: Config, store: Store, req: AuthRequest, counters: string -> int, blocked: bool, clk: Readings)
    requires !cfg.dryRun
    ensures Auth.Verify(w, cfg, store, req, counters, blocked, clk).0.allowed <==> Admitted(w, cfg, store, req, counters, blocked, clk)
  {
    var (token, sign) := TokenOf(w, cfg, req);
    var c := ClassOf(w, cfg, req, clk.classify);
    var d := Ruling(w, cfg, req, counters, clk.classify);
    GatedAnswer(w, cfg, store, req, counters, clk);
    if d.Some? {
      DecisionAdmitsIff(w, cfg, store, d.value, c, req, counters, clk);
    } else if cfg.powEnabled {
      PowOnlyAdmitsIff(w.lib, cfg, store, req, token, sign, clk);
    }
  }

  lemma DecisionAdmitsIff(w: Wiring, cfg: Config, store: Store, d: Decision, c: Classification, req: AuthRequest,
                          counters: string -> int, clk: Readings)
    requires w.engine.Some? && IsTerminal(d.target) && c == ClassOf(w, cfg, req, clk.classify)
    ensures var (token, sign) := TokenOf(w, cfg, req);
            var (a, store') := ActsOn(w, cfg, store, d, req, counters, clk);
            && a.Some?
            && (d.target.Reject? || d.target.TooMany? ==> !a.value.allowed && store' == store)
            && (!cfg.dryRun ==>
                  (a.value.allowed <==> if d.target.Accept? || d.target.RateLimit? then Paid(w.lib, cfg, store, c, req, sign)
                                        else d.target.RequirePow? && c.status.Valid? && Paid(w.lib, cfg, store, c, req, sign)))
  {
    var (token, sign) := TokenOf(w, cfg, req);
    var st := Evaluate(w.engine.value, "INPUT", RiskContext(w, req, token, sign, c, counters)).1;
    match d.target {
      case Accept | RateLimit => AcceptAdmitsIff(w, cfg, store, d, st.trace, st.marks, c, req, token, sign, clk);
      case RequirePow => RequirePowAdmitsIff(w, cfg, store, d, st.trace, st.marks, c, req, token, sign, clk);
      case _ => RejectRefuses(w, cfg, store, d, st.trace, st.marks, c, req, token, sign, clk);
    }
  }

  // If the chains say REJECT or TOO_MANY the request is not admitted and
  // nothing is charged, dry-run or not.
  lemma RefusedByTheRules(w: Wiring, cfg: Config, store: Store, req: AuthRequest, counters: string -> int, clk: Readings)
    requires var d := Ruling(w, cfg, req, counters, clk.classify); d.Some? && (d.value.target.Reject? || d.value.target.TooMany?)
    ensures var (res, store') := VerifyGated(w, cfg, store, req, counters, clk); !res.allowed && store' == store
  {
    GatedAnswer(w, cfg, store, req, counters, clk);
    DecisionAdmitsIff(w, cfg, store, Ruling(w, cfg, req, counters, clk.classify).value, ClassOf(w, cfg, req, clk.classify), req, counters, clk);
  }

  // An answer with one of the reasons that stand for a proof of work was
  // given for a presented token that is good at the instant of the check,
  // comes from its address, and is paid for; dry-run or not.
  lemma PowReasonsMeanGoodTokens(w: Wiring, cfg: Config, store: Store, req: AuthRequest, counters: string -> int, blocked: bool, clk: Readings)
    ensures var res := Auth.Verify(w, cfg, store, req, counters, blocked, clk).0;
            var (token, sign) := TokenOf(w, cfg, req);
            IsPowReason(res.reason) || res.reason.RequirePowPass? ==>
              && res.allowed && cfg.powEnabled && Presented(w.lib, cfg, token, sign)
              && var p := w.lib.decodeToken(token).value;
                 && GoodToken(w.lib, cfg, p, req.originalURI, sign, if IsPowReason(res.reason) then clk.verify else clk.classify)
                 && FromItsAddress(w.lib, p, req.realIP) && Payable(w.lib, cfg, store, p, req, sign)
  {
    if !cfg.bypassAll && req.originalURI != "" && !blocked {
      var (token, sign) := TokenOf(w, cfg, req);
      var c := ClassOf(w, cfg, req, clk.classify);
      var d := Ruling(w, cfg, req, counters, clk.classify);
      GatedAnswer(w, cfg, store, req, counters, clk);
      if d.Some? {
        RulingReason(w, cfg, store, d.value, c, req, counters, clk);
        if cfg.powEnabled { ClassifiedIff(w.lib, cfg, token, sign, req, clk.classify); }
      } else if cfg.powEnabled {
        PowOnlyAdmitsIff(w.lib, cfg, store, req, token, sign, clk);
      }
    }
  }

  lemma UnpaidReason(cfg: Config, store: Store, c: Classification, a: AuthResult)
    requires Unpaid(cfg, store, c, a)
    ensures !IsPowReason(a.reason) && !a.reason.RequirePowPass?
  {
  }

  lemma RulingReason(w: Wiring, cfg: Config, store: Store, d: Decision, c: Classification, req: AuthRequest,
                     counters: string -> int, clk: Readings)
    requires w.engine.Some? && IsTerminal(d.target) && c == ClassOf(w, cfg, req, clk.classify)
    ensures var (token, sign) := TokenOf(w, cfg, req);
            var a := ActsOn(w, cfg, store, d, req, counters, clk).0;
            && a.Some? && !IsPowReason(a.value.reason)
            && (a.value.reason.RequirePowPass? ==> a.value.allowed && c.status.Valid? && Paid(w.lib, cfg, store, c, req, sign))
  {
    var (token, sign) := TokenOf(w, cfg, req);
    var st := Evaluate(w.engine.value, "INPUT", RiskContext(w, req, token, sign, c, counters)).1;
    DecisionReason(w, cfg, store, d, st.trace, st.marks, c, req, token, sign, clk);
  }

  lemma DecisionReason(w: Wiring, cfg: Config, store: Store, d: Decision, trace: seq<TraceStep>, marks: seq<string>,
                       c: Classification, req: AuthRequest, token: string, sign: string, clk: Readings)
    requires IsTerminal(d.target)
    ensures var a := ActOnDecision(w, cfg, store, d, trace, marks, c, req, token, sign, clk).0;
            && a.Some? && !IsPowReason(a.value.reason)
            && (a.value.reason.RequirePowPass? ==> a.value.allowed && c.status.Valid? && Paid(w.lib, cfg, store, c, req, sign))
  {
    var a := ActOnDecision(w, cfg, store, d, trace, marks, c, req, token, sign, clk).0;
    if d.target.Reject? || d.target.TooMany? {
      RejectRefuses(w, cfg, store, d, trace, marks, c, req, token, sign, clk);
    } else {
      if d.target.RequirePow? { RequirePowAdmitsIff(w, cfg, store, d, trace, marks, c, req, token, sign, clk); }
      else { AcceptAdmitsIff(w, cfg, store, d, trace, marks, c, req, token, sign, clk); }
      if !Paid(w.lib, cfg, store, c, req, sign) && (c.status.Valid? || !d.target.RequirePow?) { UnpaidReason(cfg, store, c, a.value); }
    }
  }

  // Dry-run turns a denial into a 200 that keeps the original reason, and
  // changes nothing else.
  lemma DryRunRewrites(cfg: Config, res: AuthResult)
    ensures var out := MaybeDryRun(cfg, res);
            if cfg.dryRun && !res.allowed
            then && out.allowed && out.httpStatus == 200 && out.reason.DryRunAllow? && out.decision == DryRun
                 && out.dryRunOriginalError == res.reason && out.errorHeader.NoReason?
                 && (out.mode, out.signID, out.uses, out.maxUses) == (res.mode, res.signID, res.uses, res.maxUses)
            else out == res
  {
  }

  // ------------------------------------------------------- the speed label

  lemma {:induction false} DigitsOfNumber(n: nat)
    ensures DecimalValue(Decimal.Digits(n)) == n
  {
    if n >= 10 {
      DigitsOfNumber(n / 10);
      assert Decimal.Digits(n)[..|Decimal.Digits(n)| - 1] == Decimal.Digits(n / 10);
    }
  }

  lemma {:induction false} RunOfDigits(digits: string, rest: string)
    requires forall c :: c in digits ==> '0' <= c <= '9'
    requires rest == "" || !('0' <= rest[0] <= '9')
    ensures DigitRun(digits + rest) == |digits|
  {
    if digits == "" {
      assert digits + rest == rest;
    } else {
      assert (digits + rest)[1..] == digits[1..] + rest;
      assert (digits + rest)[0] == digits[0] && digits[0] in digits;
      assert forall c :: c in digits[1..] ==> c in digits;
      RunOfDigits(digits[1..], rest);
    }
  }

  function Factor(unit: string): nat {
    if unit == "k" || unit == "K" then 1024
    else if unit == "m" || unit == "M" then 1_048_576
    else if unit == "g" || unit == "G" then 1_073_741_824
    else 1
  }

  // A rate written as a number and a unit is very slow up to 128k.
  lemma VerySlowIff(n: nat, unit: string)
    requires unit in {"", "k", "K", "m", "M", "g", "G"}
    ensures IsVerySlowRate(Decimal.Digits(n) + unit) <==> n * Factor(unit) <= 131_072
  {
    var digits := Decimal.Digits(n);
    DigitsOfNumber(n);
    RunOfDigits(digits, unit);
    assert (digits + unit)[..|digits|] == digits;
    assert unit != "" ==> (digits + unit)[|digits|] == unit[0];
  }

  lemma RuleReasonVerified(text: string)
    ensures IsVerifiedReason(RuleReason(text, RiskAccept))
       <==> text in {"generic_valid", "ip_bound_valid", "require_pow_pass", "valid_pow_full_speed"}
  {
  }

  // The label of an admission by rule: verified for a token mode with one of
  // the proof-of-work reasons or without a rate, else by the rate.
  lemma LabelIff(w: Wiring, cfg: Config, store: Store, d: Decision, trace: seq<TraceStep>, marks: seq<string>,
                 c: Classification, req: AuthRequest, token: string, sign: string, clk: Readings)
    requires (d.target.Accept? || d.target.RateLimit?) && Paid(w.lib, cfg, store, c, req, sign)
    ensures var a := ActOnDecision(w, cfg, store, d, trace, marks, c, req, token, sign, clk).0;
            a.Some? && a.value.decision
                       == if || (c.mode != "" && d.reason in {"generic_valid", "ip_bound_valid", "require_pow_pass", "valid_pow_full_speed"})
                             || d.limitRate == "" || d.limitRate == "0" then Verified
                          else if IsVerySlowRate(d.limitRate) then UnverifiedVerySlow else UnverifiedSlow
  {
    ChargeIff(w.lib, cfg, store, c, req, token, sign, clk);
    RuleReasonVerified(d.reason);
    AcceptOfCharged(w, cfg, store, d, trace, marks, c, req, token, sign, clk, ChargeForRiskAllow(w.lib, cfg, store, c, req, token, sign, clk).0.value);
  }
}
