// First-use binding over whole runs: an ip_bound token minted with an empty
// IP belongs to the address that first used it, on every allow path, while
// the cleanup loop deletes records (internal/auth/pow_verify.go).
module FirstUse {
  import opened Prelude
  import opened Token
  import opened UsageStores
  import opened Auth
  import opened QuotaRuns
  import opened Samples

  // A request runs as one atomic step at one instant.
  datatype Event =
    | Request(req: AuthRequest, counters: string -> int, blocked: bool, now: int)
    | Cleanup(now: int)

  // An admitted empty-IP token and the address it was admitted for.
  datatype Admission = Admission(id: string, ip: string)

  // `flights` collects every token presented and classified valid.
  datatype Site = Site(store: UsageState, flights: seq<Flight>, admitted: seq<Admission>, clock: int)

  const OPENING := Site(UsageState(false, map[]), [], [], 0)

  function At(now: int): Readings {
    Readings(Unix(now), Unix(now), Unix(now), Unix(now))
  }

  ghost function ClassOf(w: Wiring, cfg: Config, e: Event): Classification
    requires e.Request?
  {
    var (token, sign) := w.extract(e.req.originalArgs);
    Classify(w.lib, cfg, token, sign, e.req, Unix(e.now))
  }

  ghost function After(w: Wiring, cfg: Config, s: Site, e: Event): (s': Site)
    ensures s.flights <= s'.flights && s'.clock == e.now
  {
    match e
    case Cleanup(now) => s.(store := CleanupNext(s.store, Threshold(now, cfg.gracePeriod)), clock := now)
    case Request(req, counters, blocked, now) =>
      var sign := w.extract(req.originalArgs).1;
      var c := ClassOf(w, cfg, e);
      var (res, store) := Verify(w, cfg, Some(s.store), req, counters, blocked, At(now));
      var store' := if store.Some? then store.value else s.store;
      if !c.status.Valid? || c.payload.None? then s.(store := store', clock := now)
      else
        var f := NewFlight(w.lib, c.payload.value, sign, now);
        Site(store', s.flights + [f],
             if res.allowed && NeedsBinding(c) && Enforced(w, req) then s.admitted + [Admission(f.id, req.realIP)] else s.admitted,
             now)
  }

  ghost function History(w: Wiring, cfg: Config, events: seq<Event>): Site {
    if events == [] then OPENING
    else After(w, cfg, History(w, cfg, events[..|events| - 1]), events[|events| - 1])
  }

  ghost predicate Chronological(events: seq<Event>) {
    (forall i, j :: 0 <= i <= j < |events| ==> events[i].now <= events[j].now)
    && (events != [] ==> 0 <= events[0].now)
  }

  // -------------------------------------------------------------- invariant

  // The address of the first admission of this id.
  ghost predicate IsFirst(admitted: seq<Admission>, id: string, ip: string) {
    exists i :: 0 <= i < |admitted| && admitted[i] == Admission(id, ip) && forall j :: 0 <= j < i ==> admitted[j].id != id
  }

  ghost predicate AllMatchFirst(lib: Library, admitted: seq<Admission>) {
    forall i, j :: 0 <= i < j < |admitted| && admitted[i].id == admitted[j].id
                   && (forall k :: 0 <= k < i ==> admitted[k].id != admitted[i].id)
                   ==> SameIP(lib, admitted[i].ip, admitted[j].ip)
  }

  ghost predicate Admitted(s: Site, id: string) {
    exists i :: 0 <= i < |s.admitted| && s.admitted[i].id == id
  }

  ghost predicate Expired(s: Site, id: string) {
    forall f :: f in s.flights && f.id == id ==> f.expiresAt <= Unix(s.clock)
  }

  // What holds of one sign id. A live record of an ip_bound token names the
  // address of the first admission.
  ghost predicate BindingInv(s: Site, id: string) {
    && (id in s.store.records || Admitted(s, id) ==> exists f :: f in s.flights && f.id == id)
    && (id in s.store.records ==>
          && (forall f :: f in s.flights && f.id == id ==> s.store.records[id].expiresAt == f.expiresAt)
          && (forall f :: f in s.flights && f.id == id && f.payload.mode == IP_BOUND ==>
                s.store.records[id].firstIP != "" && IsFirst(s.admitted, id, s.store.records[id].firstIP)))
    && (Admitted(s, id) && id !in s.store.records ==> Expired(s, id))
  }

  // Sign ids determine mode and expiry.
  ghost predicate Agreeing(fs: seq<Flight>) {
    forall f, g :: f in fs && g in fs && f.id == g.id ==> f.expiresAt == g.expiresAt && f.payload.mode == g.payload.mode
  }

  ghost predicate SiteInv(lib: Library, s: Site) {
    && !s.store.closed && 0 <= s.clock
    && (forall id :: BindingInv(s, id))
    && AllMatchFirst(lib, s.admitted)
  }

  // The clock moves on and a valid token is presented.
  ghost predicate Presented(s: Site, s': Site, f: Flight) {
    && s.clock <= s'.clock && f.validatedAt == s'.clock && Unix(s'.clock) < f.expiresAt
    && s'.flights == s.flights + [f] && Agreeing(s'.flights) && !s'.store.closed
  }

  // All other records are untouched; this id's record keeps its expiry.
  ghost predicate Recorded(s: Site, s': Site, f: Flight) {
    && s'.store.records.Keys == s.store.records.Keys + {f.id}
    && (forall id :: id in s.store.records && id != f.id ==> s'.store.records[id] == s.store.records[id])
    && s'.store.records[f.id].expiresAt ==
       (if f.id in s.store.records then s.store.records[f.id].expiresAt else f.expiresAt)
  }

  lemma SecondsPass(s: Site, s': Site, id: string)
    requires s.clock <= s'.clock && Expired(s, id)
    requires forall f :: f in s'.flights && f.id == id ==> f in s.flights
    ensures Expired(s', id)
  {
  }

  lemma PresentKeepsInv(lib: Library, s: Site, s': Site, f: Flight)
    requires SiteInv(lib, s) && Presented(s, s', f) && s'.admitted == s.admitted
    requires s'.store == s.store || (Recorded(s, s', f) && f.payload.mode != IP_BOUND)
    ensures SiteInv(lib, s')
  {
    assert f in s'.flights;
    forall id ensures BindingInv(s', id) {
      assert BindingInv(s, id);
      assert Admitted(s', id) ==> Admitted(s, id);
      if id in s.store.records || Admitted(s, id) {
        var g :| g in s.flights && g.id == id;
        assert g in s'.flights;
      }
      if Admitted(s', id) && id !in s'.store.records { StillExpired(s, s', f, id); }
    }
  }

  lemma StillExpired(s: Site, s': Site, f: Flight, id: string)
    requires Presented(s, s', f) && Expired(s, id) && exists g :: g in s.flights && g.id == id
    ensures f.id != id && Expired(s', id)
  {
    var g :| g in s.flights && g.id == id;
    assert g in s'.flights && f in s'.flights;
    assert g.id == f.id ==> g.expiresAt == f.expiresAt;
    SecondsPass(s, s', id);
  }

  lemma AdmitKeepsFirst(s: Site, s': Site, a: Admission, id: string, ip: string)
    requires s'.admitted == s.admitted + [a] && IsFirst(s.admitted, id, ip)
    ensures IsFirst(s'.admitted, id, ip)
  {
    var i :| 0 <= i < |s.admitted| && s.admitted[i] == Admission(id, ip) && forall j :: 0 <= j < i ==> s.admitted[j].id != id;
    assert s'.admitted[i] == Admission(id, ip);
  }

  lemma AdmittedEarlier(s: Site, s': Site, a: Admission, id: string)
    requires s'.admitted == s.admitted + [a]
    ensures Admitted(s', id) <==> Admitted(s, id) || a.id == id
  {
    if Admitted(s, id) {
      var i :| 0 <= i < |s.admitted| && s.admitted[i].id == id;
      assert s'.admitted[i].id == id;
    }
    assert s'.admitted[|s.admitted|] == a;
  }

  // A second admission: the record is there and names the first address.
  lemma AdmitAgainKeepsInv(lib: Library, s: Site, s': Site, f: Flight, ip: string)
    requires SiteInv(lib, s) && Presented(s, s', f) && s'.admitted == s.admitted + [Admission(f.id, ip)]
    requires s'.store == s.store && f.payload.mode == IP_BOUND && f.id in s.store.records
    requires s.store.records[f.id].firstIP == "" || SameIP(lib, s.store.records[f.id].firstIP, ip)
    ensures SiteInv(lib, s')
  {
    var a := Admission(f.id, ip);
    assert f in s'.flights && BindingInv(s, f.id);
    var h :| h in s.flights && h.id == f.id;
    assert h in s'.flights && h.payload.mode == IP_BOUND;
    forall id ensures BindingInv(s', id) {
      assert BindingInv(s, id);
      AdmittedEarlier(s, s', a, id);
      if id in s.store.records || Admitted(s, id) {
        var g :| g in s.flights && g.id == id;
        assert g in s'.flights;
        if id in s.store.records && g.payload.mode == IP_BOUND { AdmitKeepsFirst(s, s', a, id, s.store.records[id].firstIP); }
      }
      if Admitted(s', id) && id !in s'.store.records { StillExpired(s, s', f, id); }
    }
    FirstStillMatches(lib, s.admitted, a, s.store.records[f.id].firstIP);
  }

  lemma FirstStillMatches(lib: Library, admitted: seq<Admission>, a: Admission, first: string)
    requires AllMatchFirst(lib, admitted) && IsFirst(admitted, a.id, first) && SameIP(lib, first, a.ip)
    ensures AllMatchFirst(lib, admitted + [a])
  {
    var all := admitted + [a];
    forall i, j | 0 <= i < j < |all| && all[i].id == all[j].id && (forall k :: 0 <= k < i ==> all[k].id != all[i].id)
      ensures SameIP(lib, all[i].ip, all[j].ip)
    {
      assert forall k :: 0 <= k < |admitted| ==> all[k] == admitted[k];
      if j == |admitted| {
        var m :| 0 <= m < |admitted| && admitted[m] == Admission(a.id, first) && forall k :: 0 <= k < m ==> admitted[k].id != a.id;
        assert m == i;
      }
    }
  }

  // A first admission: no record, so no earlier one could still be valid.
  lemma AdmitFirstKeepsInv(lib: Library, s: Site, s': Site, f: Flight, ip: string)
    requires SiteInv(lib, s) && Presented(s, s', f) && s'.admitted == s.admitted + [Admission(f.id, ip)]
    requires Recorded(s, s', f) && f.payload.mode == IP_BOUND && f.id !in s.store.records
    requires s'.store.records[f.id].firstIP == ip != ""
    ensures SiteInv(lib, s')
  {
    var a := Admission(f.id, ip);
    assert f in s'.flights && BindingInv(s, f.id);
    if Admitted(s, f.id) { StillExpired(s, s', f, f.id); }
    assert IsFirst(s'.admitted, f.id, ip) by { assert s'.admitted[|s.admitted|] == a; }
    forall id ensures BindingInv(s', id) {
      assert BindingInv(s, id);
      AdmittedEarlier(s, s', a, id);
      if id in s.store.records || Admitted(s, id) {
        var g :| g in s.flights && g.id == id;
        assert g in s'.flights;
        if id in s.store.records && g.payload.mode == IP_BOUND { AdmitKeepsFirst(s, s', a, id, s.store.records[id].firstIP); }
      }
      if Admitted(s', id) && id !in s'.store.records { StillExpired(s, s', f, id); }
    }
    NewIDMatches(lib, s.admitted, a);
  }

  lemma NewIDMatches(lib: Library, admitted: seq<Admission>, a: Admission)
    requires AllMatchFirst(lib, admitted) && forall i :: 0 <= i < |admitted| ==> admitted[i].id != a.id
    ensures AllMatchFirst(lib, admitted + [a])
  {
    var all := admitted + [a];
    assert forall k :: 0 <= k < |admitted| ==> all[k] == admitted[k];
  }

  lemma IdleKeepsInv(lib: Library, s: Site, now: int)
    requires SiteInv(lib, s) && s.clock <= now
    ensures SiteInv(lib, s.(clock := now))
  {
    var s' := s.(clock := now);
    forall id ensures BindingInv(s', id) {
      assert BindingInv(s, id);
      assert Admitted(s', id) <==> Admitted(s, id);
      if Admitted(s, id) && id !in s.store.records { SecondsPass(s, s', id); }
    }
  }

  lemma CleanupKeepsInv(lib: Library, s: Site, grace: int)
    requires SiteInv(lib, s) && grace >= -SECOND
    ensures SiteInv(lib, s.(store := CleanupNext(s.store, Threshold(s.clock, grace))))
  {
    var s' := s.(store := CleanupNext(s.store, Threshold(s.clock, grace)));
    ThresholdIsPast(s.clock, grace);
    forall id ensures BindingInv(s', id) {
      assert BindingInv(s, id);
      assert Admitted(s', id) <==> Admitted(s, id);
      if Admitted(s, id) && id !in s'.store.records {
        if id !in s.store.records { SecondsPass(s, s', id); } else { assert Expired(s', id); }
      }
    }
  }

  lemma ThresholdIsPast(now: int, grace: int)
    requires grace >= -SECOND
    ensures Threshold(now, grace) <= Unix(now) + 1
  {
  }

  // ------------------------------------------------------------ whole runs

  lemma ValidFlight(w: Wiring, cfg: Config, e: Event)
    requires e.Request? && ClassOf(w, cfg, e).status.Valid?
    ensures var c := ClassOf(w, cfg, e);
            && c.payload.Some? && c.mode == c.payload.value.mode
            && Genuine(w.lib, cfg, NewFlight(w.lib, c.payload.value, w.extract(e.req.originalArgs).1, e.now))
            && Unix(e.now) < c.payload.value.expiresAt
            && (c.mode == IP_BOUND ==> e.req.realIP != "")
  {
    var (token, sign) := w.extract(e.req.originalArgs);
    ClassifiedValid(w.lib, cfg, e.req, token, sign, Unix(e.now));
    ClassifiedModes(w.lib, cfg, token, sign, e.req, Unix(e.now));
  }

  lemma RequestKeepsInv(w: Wiring, cfg: Config, s: Site, e: Event)
    requires e.Request? && s.clock <= e.now && SiteInv(w.lib, s)
    requires cfg.powEnabled && !cfg.bypassAll && !cfg.dryRun
    requires Agreeing(After(w, cfg, s, e).flights)
    ensures SiteInv(w.lib, After(w, cfg, s, e))
  {
    var (token, sign) := w.extract(e.req.originalArgs);
    var c, s', clk := ClassOf(w, cfg, e), After(w, cfg, s, e), At(e.now);
    VerifyEffect(w, cfg, s.store, e.req, e.counters, e.blocked, clk);
    if !c.status.Valid? {
      IdleKeepsInv(w.lib, s, e.now);
      assert s' == s.(clock := e.now);
    } else {
      ValidFlight(w, cfg, e);
      var f := NewFlight(w.lib, c.payload.value, sign, e.now);
      ValidKeepsInv(w.lib, cfg, s, s', c, f, e.req, token, sign, clk);
    }
  }

  lemma ValidKeepsInv(lib: Library, cfg: Config, s: Site, s': Site, c: Classification, f: Flight,
                      req: AuthRequest, token: string, sign: string, clk: Readings)
    requires SiteInv(lib, s) && s.clock <= s'.clock && f.validatedAt == s'.clock && Unix(s'.clock) < f.expiresAt
    requires s'.flights == s.flights + [f] && Agreeing(s'.flights)
    requires c.status.Valid? && c.payload == Some(f.payload) && c.mode == f.payload.mode
    requires Genuine(lib, cfg, f) && f.sign == sign && (c.mode == IP_BOUND ==> req.realIP != "")
    requires StoreStep(lib, cfg, s.store, s'.store, c, req, token, sign, clk)
    requires s'.admitted == s.admitted || (s'.admitted == s.admitted + [Admission(f.id, req.realIP)]
                                           && NeedsBinding(c) && BoundHere(lib, s.store, s'.store, f.payload, sign, req.realIP))
    requires NeedsBinding(c) && s'.store != s.store ==> s'.admitted != s.admitted
    ensures SiteInv(lib, s')
  {
    if s'.store != s.store { TouchesOneRecord(lib, cfg, s.store, s'.store, c, f, req, token, sign, clk); }
    if s'.admitted == s.admitted {
      PresentKeepsInv(lib, s, s', f);
    } else if f.id in s.store.records {
      AdmitAgainKeepsInv(lib, s, s', f, req.realIP);
    } else {
      AdmitFirstKeepsInv(lib, s, s', f, req.realIP);
    }
  }

  lemma TouchesOneRecord(lib: Library, cfg: Config, s: UsageState, s': UsageState, c: Classification, f: Flight,
                         req: AuthRequest, token: string, sign: string, clk: Readings)
    requires !s.closed && s' != s && StoreStep(lib, cfg, s, s', c, req, token, sign, clk)
    requires Genuine(lib, cfg, f) && c.payload == Some(f.payload) && c.mode == f.payload.mode && f.sign == sign
    ensures !s'.closed && Recorded(Site(s, [], [], 0), Site(s', [], [], 0), f)
    ensures NeedsBinding(c) || c.mode != IP_BOUND
  {
    var input := if c.mode == GENERIC then GenericInput(lib, cfg, f.payload, req, token, sign, clk.charge)
                 else BindingInput(lib, cfg, f.payload, req, token, sign, clk.charge);
    assert s' == ConsumeNext(s, input, clk.wall).1;
    ConsumeEffect(s, input, clk.wall);
  }

  lemma {:induction false} PresentedAreGenuine(w: Wiring, cfg: Config, events: seq<Event>)
    ensures forall f :: f in History(w, cfg, events).flights ==> Genuine(w.lib, cfg, f)
  {
    if events != [] {
      var e := events[|events| - 1];
      PresentedAreGenuine(w, cfg, events[..|events| - 1]);
      if e.Request? && ClassOf(w, cfg, e).status.Valid? { ValidFlight(w, cfg, e); }
    }
  }

  lemma GenuineAgree(lib: Library, cfg: Config, fs: seq<Flight>)
    requires NoCollision(fs) && forall f :: f in fs ==> Genuine(lib, cfg, f)
    ensures Agreeing(fs)
  {
    forall f, g | f in fs && g in fs && f.id == g.id ensures f.expiresAt == g.expiresAt && f.payload.mode == g.payload.mode {
      SamePreimage(fs, f, g);
      SameIDSameExpiry(lib, cfg, f, g);
    }
  }

  lemma {:induction false} HistoryKeepsInv(w: Wiring, cfg: Config, events: seq<Event>)
    requires cfg.powEnabled && !cfg.bypassAll && !cfg.dryRun && cfg.gracePeriod >= -SECOND && Chronological(events)
    requires Agreeing(History(w, cfg, events).flights)
    ensures var s := History(w, cfg, events);
            SiteInv(w.lib, s) && (events != [] ==> s.clock == events[|events| - 1].now) && (events == [] ==> s == OPENING)
  {
    if events != [] {
      var e, earlier := events[|events| - 1], events[..|events| - 1];
      var s := History(w, cfg, earlier);
      AgreeingEarlier(s.flights, After(w, cfg, s, e).flights);
      HistoryKeepsInv(w, cfg, earlier);
      EventKeepsInv(w, cfg, s, e);
    }
  }

  lemma AgreeingEarlier(fs: seq<Flight>, more: seq<Flight>)
    requires fs <= more && Agreeing(more)
    ensures Agreeing(fs)
  {
    assert forall f :: f in fs ==> f in more;
  }

  lemma EventKeepsInv(w: Wiring, cfg: Config, s: Site, e: Event)
    requires s.clock <= e.now && SiteInv(w.lib, s)
    requires cfg.powEnabled && !cfg.bypassAll && !cfg.dryRun && cfg.gracePeriod >= -SECOND
    requires Agreeing(After(w, cfg, s, e).flights)
    ensures var s' := After(w, cfg, s, e);
            SiteInv(w.lib, s') && s'.clock == e.now
  {
    if e.Cleanup? {
      IdleKeepsInv(w.lib, s, e.now);
      CleanupKeepsInv(w.lib, s.(clock := e.now), cfg.gracePeriod);
    } else {
      RequestKeepsInv(w, cfg, s, e);
    }
  }

  // Over any run, all requests admitted with one empty-IP token come from an
  // address that matches the first one's, whatever path admitted them and
  // however often cleanup ran.
  lemma {:induction false} EmptyIPTokensStayWithFirstAddress(w: Wiring, cfg: Config, events: seq<Event>)
    requires cfg.powEnabled && !cfg.bypassAll && !cfg.dryRun && cfg.gracePeriod >= -SECOND && Chronological(events)
    requires NoCollision(History(w, cfg, events).flights)
    ensures AllMatchFirst(w.lib, History(w, cfg, events).admitted)
  {
    PresentedAreGenuine(w, cfg, events);
    GenuineAgree(w.lib, cfg, History(w, cfg, events).flights);
    HistoryKeepsInv(w, cfg, events);
  }

  // ---------------------------------------------- the grace period is exact

  // A collision-free run of an enforcing deployment in which some empty-IP
  // token is admitted from an address that does not match its first one.
  ghost predicate Strays(w: Wiring, cfg: Config, events: seq<Event>) {
    && cfg.powEnabled && !cfg.bypassAll && !cfg.dryRun && Chronological(events)
    && NoCollision(History(w, cfg, events).flights)
    && !AllMatchFirst(w.lib, History(w, cfg, events).admitted)
  }

  ghost predicate BindsWithGrace(grace: int) {
    forall w: Wiring, cfg: Config, events: seq<Event> :: cfg.gracePeriod == grace ==> !Strays(w, cfg, events)
  }

  // A deployment in which the one empty-IP token always validates.
  const STRAY_LIB := Library((_: string) => [], (_: string) => ZERO_SIGN, (_: string) => Some(LaxToken(IP_BOUND)),
                             (a: string, b: string) => a == b, (_: string) => None)
  const STRAY_WIRING := Wiring(STRAY_LIB, (_: string) => true, (_: string) => ("t", ZERO_SIGN), None)
  const STRAY_TIME := 11 * SECOND - 1

  function StrayRequest(ip: string): Event {
    Request(AuthRequest("/", "GET", "", ip, "", ""), (_: string) => 0, false, STRAY_TIME)
  }

  // Presented while no record exists, the token binds to any address.
  lemma StrayStep(grace: int, s: Site, ip: string)
    requires !s.store.closed && ZERO_SIGN !in s.store.records && ip != ""
    ensures var s' := After(STRAY_WIRING, LaxConfig(grace), s, StrayRequest(ip));
            && !s'.store.closed && s'.store.records.Keys == s.store.records.Keys + {ZERO_SIGN}
            && s'.store.records[ZERO_SIGN].expiresAt == 11
            && s'.flights == s.flights + [NewFlight(STRAY_LIB, LaxToken(IP_BOUND), ZERO_SIGN, STRAY_TIME)]
            && s'.admitted == s.admitted + [Admission(ZERO_SIGN, ip)]
  {
    var cfg, req := LaxConfig(grace), StrayRequest(ip).req;
    assert Unix(STRAY_TIME) == 10;
    LaxTokenPasses(STRAY_LIB, grace, IP_BOUND);
    ClassifyAddress(STRAY_LIB, cfg, req, "t", ZERO_SIGN, LaxToken(IP_BOUND), 10);
    PowOnlyFinalizes(STRAY_LIB, cfg, Some(s.store), req, "t", ZERO_SIGN, LaxToken(IP_BOUND), At(STRAY_TIME));
  }

  lemma LastEvent(w: Wiring, cfg: Config, events: seq<Event>, e: Event)
    ensures History(w, cfg, events + [e]) == After(w, cfg, History(w, cfg, events), e)
  {
    assert (events + [e])[..|events|] == events;
  }

  // The record of the first use has expired past the threshold.
  lemma SweptAway(cfg: Config, s: Site)
    requires cfg.gracePeriod < -SECOND && !s.store.closed
    requires s.store.records.Keys == {ZERO_SIGN} && s.store.records[ZERO_SIGN].expiresAt == 11
    ensures var s' := After(STRAY_WIRING, cfg, s, Cleanup(STRAY_TIME));
            !s'.store.closed && s'.store.records.Keys == {} && s'.flights == s.flights && s'.admitted == s.admitted
  {
    assert Threshold(STRAY_TIME, cfg.gracePeriod) > 11;
  }

  // Only the one token was presented, and no record of it is left.
  ghost predicate Forgot(s: Site, f: Flight, admitted: seq<Admission>) {
    !s.store.closed && f.id !in s.store.records && s.admitted == admitted && OnlyFlight(s.flights, f)
  }

  ghost predicate OnlyFlight(fs: seq<Flight>, f: Flight) {
    forall g :: g in fs ==> g == f
  }

  lemma UsedAndSwept(grace: int, s: Site)
    requires grace < -SECOND && s == OPENING
    ensures Forgot(After(STRAY_WIRING, LaxConfig(grace), After(STRAY_WIRING, LaxConfig(grace), s, StrayRequest("a")), Cleanup(STRAY_TIME)),
                   NewFlight(STRAY_LIB, LaxToken(IP_BOUND), ZERO_SIGN, STRAY_TIME), [Admission(ZERO_SIGN, "a")])
  {
    StrayStep(grace, s, "a");
    SweptAway(LaxConfig(grace), After(STRAY_WIRING, LaxConfig(grace), s, StrayRequest("a")));
  }

  lemma UsedAgain(grace: int, s: Site)
    requires Forgot(s, NewFlight(STRAY_LIB, LaxToken(IP_BOUND), ZERO_SIGN, STRAY_TIME), [Admission(ZERO_SIGN, "a")])
    ensures var s' := After(STRAY_WIRING, LaxConfig(grace), s, StrayRequest("b"));
            && s'.admitted == [Admission(ZERO_SIGN, "a"), Admission(ZERO_SIGN, "b")]
            && OnlyFlight(s'.flights, NewFlight(STRAY_LIB, LaxToken(IP_BOUND), ZERO_SIGN, STRAY_TIME))
  {
    StrayStep(grace, s, "b");
  }

  // In the last nanosecond before the token's final second: used from one
  // address, its record swept at once, used from another.
  lemma StrayHistory(grace: int)
    requires grace < -SECOND
    ensures var s := History(STRAY_WIRING, LaxConfig(grace), [StrayRequest("a")] + [Cleanup(STRAY_TIME)] + [StrayRequest("b")]);
            && s.admitted == [Admission(ZERO_SIGN, "a"), Admission(ZERO_SIGN, "b")]
            && OnlyFlight(s.flights, NewFlight(STRAY_LIB, LaxToken(IP_BOUND), ZERO_SIGN, STRAY_TIME))
  {
    var w, cfg := STRAY_WIRING, LaxConfig(grace);
    var first, sweep, second := [StrayRequest("a")], [Cleanup(STRAY_TIME)], [StrayRequest("b")];
    LastEvent(w, cfg, [], first[0]);
    LastEvent(w, cfg, first, sweep[0]);
    LastEvent(w, cfg, first + sweep, second[0]);
    assert History(w, cfg, []) == OPENING && [] + first == first;
    UsedAndSwept(grace, OPENING);
    UsedAgain(grace, History(w, cfg, first + sweep));
  }

  lemma TwoAddressesStray(w: Wiring, cfg: Config, events: seq<Event>, f: Flight, id: string, a: string, b: string)
    requires cfg.powEnabled && !cfg.bypassAll && !cfg.dryRun && Chronological(events)
    requires OnlyFlight(History(w, cfg, events).flights, f) && !SameIP(w.lib, a, b)
    requires History(w, cfg, events).admitted == [Admission(id, a), Admission(id, b)]
    ensures Strays(w, cfg, events)
  {
    var admitted := History(w, cfg, events).admitted;
    assert admitted[0].id == admitted[1].id && !SameIP(w.lib, admitted[0].ip, admitted[1].ip);
  }

  lemma ShortGraceStrays(grace: int)
    requires grace < -SECOND
    ensures !BindsWithGrace(grace)
  {
    var events := [StrayRequest("a")] + [Cleanup(STRAY_TIME)] + [StrayRequest("b")];
    StrayHistory(grace);
    TwoAddressesStray(STRAY_WIRING, LaxConfig(grace), events, NewFlight(STRAY_LIB, LaxToken(IP_BOUND), ZERO_SIGN, STRAY_TIME),
                      ZERO_SIGN, "a", "b");
  }

  // First-use binding holds over all runs exactly when the grace period is at
  // least minus one second; the configuration accepts any.
  lemma GraceBoundIsExact(grace: int)
    ensures BindsWithGrace(grace) <==> grace >= -SECOND
  {
    if grace >= -SECOND {
      forall w: Wiring, cfg: Config, events: seq<Event> | cfg.gracePeriod == grace ensures !Strays(w, cfg, events) {
        if Strays(w, cfg, events) { EmptyIPTokensStayWithFirstAddress(w, cfg, events); }
      }
    } else {
      ShortGraceStrays(grace);
    }
  }
}
