// What an answer reports about the token it honoured: the sign id, the use
// counts, and whether they name the record that was written
// (internal/auth/pow_verify.go and service.go).
module Reports {
  import opened Prelude
  import opened Token
  import opened UsageStores
  import opened RuleChains
  import opened Auth
  import opened Samples

  // ------------------------------------------------- ids of ip_bound tokens

  // The text behind the reported id: by then an empty IP has been replaced by
  // the address of the request.
  function ReportedPreimage(p: TokenPayload, sign: string, realIP: string): string {
    SignIDPreimage(if p.ip == "" then p.(ip := realIP) else p, sign, IP_BOUND)
  }

  // The text behind the key under which the token is bound.
  function RecordPreimage(p: TokenPayload, sign: string): string {
    SignIDPreimage(p, sign, IP_BOUND)
  }

  predicate TellsApart(lib: Library, s: string, t: string) {
    lib.sha256Hex(s) == lib.sha256Hex(t) ==> s == t
  }

  lemma AcceptedIsOneLine(lib: Library, p: TokenPayload, opts: ValidatorOptions)
    requires ValidatePayload(lib, p, Some(opts)).None?
    ensures '\n' !in p.path && '\n' !in p.counter && '\n' !in p.salt
  {
    assert !IsCounterByte('\n');
  }

  lemma SamePreimageSameFields(p: TokenPayload, q: TokenPayload, sign: string)
    requires p.mode == q.mode == IP_BOUND && '\n' !in sign
    requires '\n' !in p.path && '\n' !in p.counter && '\n' !in p.salt
    requires '\n' !in q.path && '\n' !in q.counter && '\n' !in q.salt
    requires SignIDPreimage(p, sign, IP_BOUND) == SignIDPreimage(q, sign, IP_BOUND)
    ensures FieldsOf(p) == FieldsOf(q)
  {
    PreimageDecodes(p, sign, IP_BOUND);
    PreimageDecodes(q, sign, IP_BOUND);
    CanonicalRoundTrip(p);
    CanonicalRoundTrip(q);
  }

  // Filling in an address changes the sign-id text.
  lemma FilledInDiffers(lib: Library, cfg: Config, p: TokenPayload, sign: string, realIP: string)
    requires p.mode == IP_BOUND && ValidatePayload(lib, p, Some(ModeConfigFor(cfg, IP_BOUND).value.opts)).None?
    requires IsValidSignHex(sign) && realIP != ""
    ensures ReportedPreimage(p, sign, realIP) == RecordPreimage(p, sign) <==> p.ip != ""
  {
    var q := p.(ip := realIP);
    AcceptedIsOneLine(lib, p, ModeConfigFor(cfg, IP_BOUND).value.opts);
    assert '\n' !in sign by { assert !IsHexDigit('\n'); }
    if p.ip == "" && SignIDPreimage(p, sign, IP_BOUND) == SignIDPreimage(q, sign, IP_BOUND) {
      SamePreimageSameFields(p, q, sign);
    }
  }

  lemma IPBoundAnswer(lib: Library, cfg: Config, store: Store, p: TokenPayload, req: AuthRequest,
                      token: string, sign: string, clk: Readings)
    requires FinalizeIPBound(lib, cfg, store, p, req, token, sign, clk).0.reason == Reason.IPBoundValid
    ensures req.realIP != ""
    ensures FinalizeIPBound(lib, cfg, store, p, req, token, sign, clk).0.signID
         == (if p.ip == "" then ComputeSignID(lib, p.(ip := req.realIP), sign, IP_BOUND) else ComputeSignID(lib, p, sign, IP_BOUND))
  {
  }

  // An answer "ip_bound_valid" reports the id of the token's record exactly
  // when the token carries an IP of its own; for an empty-IP token, the one
  // kind that has a record, the reported id is another one.
  lemma ReportedIDNamesRecordIff(lib: Library, cfg: Config, store: Store, req: AuthRequest, token: string, sign: string,
                                 payload: Option<TokenPayload>, clk: Readings)
    requires VerifyPoWOnly(lib, cfg, store, req, token, sign, payload, clk).0.reason == Reason.IPBoundValid
    ensures payload.Some? && payload.value.mode == IP_BOUND && req.realIP != ""
    ensures var p, res := payload.value, VerifyPoWOnly(lib, cfg, store, req, token, sign, payload, clk).0;
            var reported, recorded := ReportedPreimage(p, sign, req.realIP), RecordPreimage(p, sign);
            && res.signID == lib.sha256Hex(reported)
            && (reported == recorded <==> p.ip != "")
            && (TellsApart(lib, reported, recorded) ==> (res.signID == ComputeSignID(lib, p, sign, IP_BOUND) <==> p.ip != ""))
  {
    OnlyIPBoundAnswers(lib, cfg, store, req, token, sign, payload, clk);
    var p := payload.value;
    PowOnlyFinalizes(lib, cfg, store, req, token, sign, p, clk);
    IPBoundAnswer(lib, cfg, store, p, req, token, sign, clk);
    FilledInDiffers(lib, cfg, p, sign, req.realIP);
  }

  lemma OnlyIPBoundAnswers(lib: Library, cfg: Config, store: Store, req: AuthRequest, token: string, sign: string,
                           payload: Option<TokenPayload>, clk: Readings)
    requires VerifyPoWOnly(lib, cfg, store, req, token, sign, payload, clk).0.reason == Reason.IPBoundValid
    ensures token != "" && sign != "" && |token| <= cfg.maxTokenLength && |sign| <= cfg.maxSignLength
    ensures payload.Some? && payload.value.mode == IP_BOUND
    ensures ValidateTokenForMode(lib, cfg, payload.value, IP_BOUND, req.originalURI, sign, clk.verify).None?
  {
    if payload.Some? && token != "" && sign != "" && |token| <= cfg.maxTokenLength && |sign| <= cfg.maxSignLength {
      var p := payload.value;
      if ValidateTokenForMode(lib, cfg, p, p.mode, req.originalURI, sign, clk.verify).None? {
        PowOnlyFinalizes(lib, cfg, store, req, token, sign, p, clk);
      }
    }
  }

  // ------------------------------------------- the reported record exists

  // An admitted generic token, on either flow and with dry-run off, reports
  // the id of a record that is in the store with the reported use count.
  lemma GenericAnswerNamesRecord(w: Wiring, cfg: Config, store: Store, d: Decision, trace: seq<TraceStep>, marks: seq<string>,
                                 req: AuthRequest, token: string, sign: string, clk: Readings)
    requires d.target.RequirePow? && Frozen(clk) && !cfg.dryRun
    requires var c := Classify(w.lib, cfg, token, sign, req, clk.classify); c.status.Valid? && c.mode == GENERIC
    ensures var c := Classify(w.lib, cfg, token, sign, req, clk.classify);
            var (risk, store') := ActOnDecision(w, cfg, store, d, trace, marks, c, req, token, sign, clk);
            c.payload.Some? && risk.Some? && (risk.value.allowed ==>
              var id := risk.value.signID;
              && id == ComputeSignID(w.lib, c.payload.value, sign, GENERIC)
              && store'.Some? && id in store'.value.records && store'.value.records[id].uses == risk.value.uses)
  {
    ClassifiedModes(w.lib, cfg, token, sign, req, clk.classify);
  }

  // -------------------------------------------------------- failing inputs

  // A hash that tells everything apart.
  const PLAIN_LIB := Library((_: string) => [], (s: string) => s, (_: string) => Some(LaxToken(IP_BOUND)),
                             (_: string, _: string) => true, (_: string) => None)

  // The first use of an empty-IP token writes one record, and the answer
  // reports an id under which there is none.
  lemma FirstUseReportsAnotherID()
    ensures var req := AuthRequest("/", "GET", "", "192.0.2.1", "", "");
            var (res, store') := VerifyPoWOnly(PLAIN_LIB, LaxConfig(0), Some(UsageState(false, map[])), req, "t", ZERO_SIGN,
                                               Some(LaxToken(IP_BOUND)), Readings(10, 10, 10, 10));
            && res.reason == Reason.IPBoundValid && store'.Some?
            && store'.value.records.Keys == {ComputeSignID(PLAIN_LIB, LaxToken(IP_BOUND), ZERO_SIGN, IP_BOUND)}
            && res.signID !in store'.value.records
  {
    var req, clk := AuthRequest("/", "GET", "", "192.0.2.1", "", ""), Readings(10, 10, 10, 10);
    var empty := Some(UsageState(false, map[]));
    LaxTokenPasses(PLAIN_LIB, 0, IP_BOUND);
    PowOnlyFinalizes(PLAIN_LIB, LaxConfig(0), empty, req, "t", ZERO_SIGN, LaxToken(IP_BOUND), clk);
    ReportedIDNamesRecordIff(PLAIN_LIB, LaxConfig(0), empty, req, "t", ZERO_SIGN, Some(LaxToken(IP_BOUND)), clk);
  }

  // Without a token, dry-run mode admits through the PoW-only flow and
  // refuses through a REQUIRE_POW chain.
  lemma DryRunSplitsMissingTokens(w: Wiring, cfg: Config, store: Store, d: Decision, trace: seq<TraceStep>, marks: seq<string>,
                                  req: AuthRequest, sign: string, clk: Readings)
    requires d.target.RequirePow? && cfg.dryRun
    ensures var c := Classify(w.lib, cfg, "", sign, req, clk.classify);
            var risk := ActOnDecision(w, cfg, store, d, trace, marks, c, req, "", sign, clk).0;
            var only := VerifyPoWOnly(w.lib, cfg, store, req, "", sign, c.payload, clk).0;
            && risk.Some? && !risk.value.allowed && risk.value.httpStatus == 403
            && only.allowed && only.httpStatus == 200
  {
  }
}
