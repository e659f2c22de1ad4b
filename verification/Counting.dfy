// What a counter rule really counts: the bucketed store against a plain log,
// and the registry that increments after each evaluation and reads through a
// cache during one (internal/risk/counter.go).
module Counting {
  import opened Prelude
  import opened CounterStores
  import opened RuleChains

  // ------------------------------------------------------- the plain count

  datatype Event =
    | Incr(name: string, key: string, window: int, at: Instant)
    | Reset(name: string, key: string, window: int, at: Instant)

  // Increments of this name and key that fall into the window of `now`,
  // since the last reset.
  function Count(log: seq<Event>, name: string, key: string, window: int, now: Instant): nat
    requires window > 0
  {
    if log == [] then 0
    else
      var e, earlier := log[|log| - 1], log[..|log| - 1];
      if e.name != name || e.key != key then Count(earlier, name, key, window, now)
      else if e.Reset? then 0
      else Count(earlier, name, key, window, now) + if e.at / window == now / window then 1 else 0
  }

  function Next(s: CounterState, e: Event): CounterState {
    match e
    case Incr(name, key, window, at) => IncrNext(s, name, key, window, at).1
    case Reset(name, key, window, at) => ResetNext(s, name, key, window, at)
  }

  function After(log: seq<Event>): CounterState {
    if log == [] then CounterState(false, map[], 0) else Next(After(log[..|log| - 1]), log[|log| - 1])
  }

  // A name is always used with its own window.
  ghost predicate WellNamed(windows: string -> int, e: Event) {
    windows(e.name) == e.window > 0
  }

  // The names in use are pairwise apart.
  ghost predicate NamesApart(windows: string -> int) {
    forall name, name' :: windows(name) > 0 && windows(name') > 0 ==> Apart(name, name')
  }

  ghost predicate Chronological(log: seq<Event>) {
    forall i, j :: 0 <= i <= j < |log| ==> log[i].at <= log[j].at
  }

  // No bucket goes stale before its window is over.
  ghost predicate LastsItsWindow(windows: string -> int, s: CounterState) {
    forall name, key, start :: windows(name) > 0 && KeyAt(name, key, start) in s.buckets ==>
      start + windows(name) <= s.buckets[KeyAt(name, key, start)].expiresAt
  }

  lemma SameWindow(window: int, a: Instant, b: Instant)
    requires window > 0
    ensures WindowStart(window, a) == WindowStart(window, b) <==> a / window == b / window
  {
  }

  // Two reachable buckets share a key only if they are the same bucket.
  lemma KeysDiffer(name: string, key: string, window: int, at: Instant, name': string, key': string, window': int, now: Instant)
    requires Apart(name, name') && window > 0 && window' > 0 && (name == name' ==> window == window')
    ensures BucketKey(name, key, window, at) == BucketKey(name', key', window', now)
       <==> name == name' && key == key' && at / window == now / window
  {
    SameWindow(window, at, now);
    if BucketKey(name, key, window, at) == BucketKey(name', key', window', now) {
      BucketKeysAreInjective(name, key, WindowStart(window, at), name', key', WindowStart(window', now));
    }
  }

  lemma IncrKeepsLasting(windows: string -> int, s: CounterState, e: Event)
    requires e.Incr? && NamesApart(windows) && WellNamed(windows, e) && LastsItsWindow(windows, s)
    ensures LastsItsWindow(windows, Next(s, e))
  {
    var s', mine := Next(s, e), WindowStart(e.window, e.at);
    forall name, key, start | windows(name) > 0 && KeyAt(name, key, start) in s'.buckets
      ensures start + windows(name) <= s'.buckets[KeyAt(name, key, start)].expiresAt
    {
      if KeyAt(name, key, start) == KeyAt(e.name, e.key, mine) {
        BucketKeysAreInjective(name, key, start, e.name, e.key, mine);
      }
    }
  }

  // A bucket in the current window is never stale, so never swept.
  lemma CurrentBucketLives(windows: string -> int, s: CounterState, name: string, key: string, now: Instant)
    requires LastsItsWindow(windows, s) && windows(name) > 0
    ensures var k := BucketKey(name, key, windows(name), now);
            && (k in s.buckets ==> Live(s.buckets, k, now) == Some(s.buckets[k]))
            && (k in s.buckets ==> k in SweepNext(s, now).buckets)
  {
    assert BucketKey(name, key, windows(name), now) == KeyAt(name, key, WindowStart(windows(name), now));
  }

  function Value(s: CounterState, name: string, key: string, window: int, now: Instant): int
    requires window > 0
  {
    match Live(s.buckets, BucketKey(name, key, window, now), now) case Some(b) => b.value case None => 0
  }

  // The effect of one event on every later reading.
  lemma EventEffect(windows: string -> int, s: CounterState, e: Event, name: string, key: string, now: Instant)
    requires !s.closed && NamesApart(windows) && WellNamed(windows, e) && LastsItsWindow(windows, s) && e.at <= now
    requires windows(name) > 0
    ensures var before, after := Value(s, name, key, windows(name), now), Value(Next(s, e), name, key, windows(name), now);
            if e.name != name || e.key != key then after == before
            else if e.Reset? then (e.at / e.window == now / e.window ==> after == 0) && (e.at / e.window != now / e.window ==> after == before)
            else after == before + if e.at / e.window == now / e.window then 1 else 0
  {
    var window := windows(name);
    KeysDiffer(e.name, e.key, e.window, e.at, name, key, window, now);
    CurrentBucketLives(windows, s, name, key, now);
    if e.Incr? {
      IncrKeepsLasting(windows, s, e);
      CurrentBucketLives(windows, Next(s, e), name, key, now);
      if e.name == name && e.key == key && e.at / e.window == now / e.window {
        CurrentBucketLives(windows, s, name, key, e.at);
      }
    }
  }

  lemma {:induction false} StoreCountsLog(windows: string -> int, log: seq<Event>)
    requires NamesApart(windows) && Chronological(log) && forall e :: e in log ==> WellNamed(windows, e)
    ensures !After(log).closed && LastsItsWindow(windows, After(log))
    ensures forall name, key, now: Instant :: windows(name) > 0 && (log == [] || log[|log| - 1].at <= now) ==>
              Value(After(log), name, key, windows(name), now) == Count(log, name, key, windows(name), now)
  {
    if log != [] {
      var e, earlier := log[|log| - 1], log[..|log| - 1];
      StoreCountsLog(windows, earlier);
      assert earlier == [] || earlier[|earlier| - 1].at <= e.at;
      if e.Incr? { IncrKeepsLasting(windows, After(earlier), e); }
      forall name, key, now: Instant | windows(name) > 0 && e.at <= now
        ensures Value(After(log), name, key, windows(name), now) == Count(log, name, key, windows(name), now)
      {
        EventEffect(windows, After(earlier), e, name, key, now);
        if e.Reset? && e.name == name && e.key == key && e.at / e.window != now / e.window {
          OnlyOlderWindows(earlier, name, key, e.window, e.at, now);
        }
      }
    }
  }

  // Nothing logged up to `at` counts in a later window.
  lemma {:induction false} OnlyOlderWindows(log: seq<Event>, name: string, key: string, window: int, at: Instant, now: Instant)
    requires window > 0 && at <= now && at / window != now / window
    requires forall e :: e in log ==> e.at <= at
    ensures Count(log, name, key, window, now) == 0
  {
    if log != [] {
      OnlyOlderWindows(log[..|log| - 1], name, key, window, at, now);
      assert log[|log| - 1] in log;
      DivisionIsMonotone(log[|log| - 1].at, at, window);
      DivisionIsMonotone(at, now, window);
    }
  }

  lemma DivisionIsMonotone(a: int, b: int, d: int)
    requires 0 <= a <= b && d > 0
    ensures a / d <= b / d
  {
    if b / d < a / d { TimesIsMonotone(b / d + 1, a / d, d); }
  }

  lemma TimesIsMonotone(x: int, y: int, d: int)
    requires x <= y && d > 0
    ensures x * d <= y * d
  {
  }

  // After any run, Get returns the plain count: how often Incr was called
  // for this name and key in the current window since the last Reset.
  lemma {:induction false} GetIsPlainCount(windows: string -> int, log: seq<Event>, name: string, key: string, now: Instant)
    requires NamesApart(windows) && Chronological(log) && forall e :: e in log ==> WellNamed(windows, e)
    requires windows(name) > 0 && (log == [] || log[|log| - 1].at <= now)
    ensures Reading(After(log), name, key, windows(name), now) == Ok(Count(log, name, key, windows(name), now) as int)
  {
    StoreCountsLog(windows, log);
  }

  ghost predicate Miscounts(windows: string -> int, log: seq<Event>, name: string, key: string, now: Instant) {
    && Chronological(log) && (forall e :: e in log ==> WellNamed(windows, e))
    && windows(name) > 0 && (log == [] || log[|log| - 1].at <= now)
    && Reading(After(log), name, key, windows(name), now) != Ok(Count(log, name, key, windows(name), now) as int)
  }

  lemma StartsOf(w: int)
    requires 0 < w <= INT64_MAX
    ensures WindowStart(w, w) == w && (w > 1 ==> WindowStart(w, 1) == 0)
  {
    assert w / w == 1;
    if w > 1 { assert 1 / w == 0; }
  }

  // Some instant at which windows of both lengths start together.
  lemma CommonStart(w: int, w': int) returns (now: Instant)
    requires 0 < w <= INT64_MAX && 0 < w' <= INT64_MAX
    ensures WindowStart(w, now) == WindowStart(w', now)
  {
    StartsOf(w);
    StartsOf(w');
    if w == 1 {
      now := w';
      assert WindowStart(1, w') == w';
    } else if w' == 1 {
      now := w;
      assert WindowStart(1, w) == w;
    } else {
      now := 1;
    }
  }

  // One increment of one name, when windows of both start together, is read
  // back under the other.
  lemma CollidingNamesMiscount(windows: string -> int, name: string, name': string)
    requires 0 < windows(name) <= INT64_MAX && 0 < windows(name') <= INT64_MAX && !Apart(name, name')
    ensures exists log, key, now: Instant :: Miscounts(windows, log, name', key, now)
  {
    var now := CommonStart(windows(name), windows(name'));
    var key, key' := Collision(name, name');
    var start := WindowStart(windows(name), now);
    assert KeyAt(name, key, start) == KeyAt(name', key', start);
    MiscountAt(windows, name, key, name', key', now);
  }

  lemma MiscountAt(windows: string -> int, name: string, key: string, name': string, key': string, now: Instant)
    requires windows(name) > 0 && windows(name') > 0 && name != name'
    requires BucketKey(name, key, windows(name), now) == BucketKey(name', key', windows(name'), now)
    ensures Miscounts(windows, [Incr(name, key, windows(name), now)], name', key', now)
  {
    var e := Incr(name, key, windows(name), now);
    var log := [e];
    assert log[..0] == [];
    assert After(log) == Next(After([]), e);
    assert Count(log, name', key', windows(name'), now) == 0;
    assert Reading(After(log), name', key', windows(name'), now) == Ok(1);
  }

  // The store counts every log right exactly when the names are apart, which
  // the configuration does not check. A window is a 64-bit duration.
  lemma CountsExactlyIff(windows: string -> int)
    requires forall name :: windows(name) <= INT64_MAX
    ensures (forall log, name, key, now: Instant :: !Miscounts(windows, log, name, key, now)) <==> NamesApart(windows)
  {
    if NamesApart(windows) {
      forall log, name, key, now: Instant ensures !Miscounts(windows, log, name, key, now) {
        if Miscounts(windows, log, name, key, now) { GetIsPlainCount(windows, log, name, key, now); }
      }
    } else {
      var name, name' :| windows(name) > 0 && windows(name') > 0 && !Apart(name, name');
      CollidingNamesMiscount(windows, name, name');
    }
  }

  // ---------------------------------------------------------- the registry

  // Absent conditions mean "any".
  datatype When = When(isProtected: Option<bool>, isRangeRequest: Option<bool>, powStatus: string, powMode: string)

  datatype CounterDef = CounterDef(keyField: string, window: int, when: When)

  type Definitions = map<string, CounterDef>

  predicate WhenMatches(w: When, req: RequestContext) {
    && (w.isProtected.Some? ==> w.isProtected.value == req.isProtected)
    && (w.isRangeRequest.Some? ==> w.isRangeRequest.value == req.isRangeRequest)
    && (w.powStatus != "" ==> w.powStatus == StatusText(req.powStatus))
    && (w.powMode != "" ==> w.powMode == req.powMode)
  }

  function CounterKey(field: string, req: RequestContext): string {
    if field == "ip" then req.ip
    else if field == "path" then req.path
    else if field == "ip_path" then req.ip + "|" + req.path
    else ""
  }

  predicate Counts(defs: Definitions, name: string, req: RequestContext) {
    name in defs && WhenMatches(defs[name].when, req) && CounterKey(defs[name].keyField, req) != ""
  }

  // The increments of one request, taken over the definitions in `order`.
  function Increments(defs: Definitions, order: seq<string>, req: RequestContext, at: Instant): seq<Event> {
    if order == [] then []
    else
      var name := order[|order| - 1];
      Increments(defs, order[..|order| - 1], req, at)
      + if Counts(defs, name, req) then [Incr(name, CounterKey(defs[name].keyField, req), defs[name].window, at)] else []
  }

  ghost predicate Enumerates(order: seq<string>, defs: Definitions) {
    && (forall name :: name in order <==> name in defs)
    && (forall i, j :: 0 <= i < j < |order| ==> order[i] != order[j])
  }

  // A positive window for every counter, which the configuration check
  // enforces, and names that are apart, which nothing enforces.
  ghost predicate Proper(defs: Definitions) {
    && (forall name :: name in defs ==> defs[name].window > 0)
    && forall name, name' :: name in defs && name' in defs ==> Apart(name, name')
  }

  function Applied(s: CounterState, events: seq<Event>): CounterState {
    if events == [] then s else Next(Applied(s, events[..|events| - 1]), events[|events| - 1])
  }

  lemma AppliedOneMore(s: CounterState, events: seq<Event>, e: Event)
    ensures Applied(s, events + [e]) == Next(Applied(s, events), e)
  {
    assert (events + [e])[..|events|] == events;
  }

  lemma IncrementsOneMore(defs: Definitions, order: seq<string>, name: string, req: RequestContext, at: Instant)
    ensures Increments(defs, order + [name], req, at)
         == if Counts(defs, name, req)
            then Increments(defs, order, req, at) + [Incr(name, CounterKey(defs[name].keyField, req), defs[name].window, at)]
            else Increments(defs, order, req, at)
  {
    assert (order + [name])[..|order|] == order;
  }

  method IncrementOne(store: CounterStore, name: string, key: string, window: int, now: Instant) returns (failed: bool)
    requires store.Valid()
    modifies store.Repr
    ensures store.Valid() && fresh(store.Repr - old(store.Repr))
    ensures store.State() == Next(old(store.State()), Incr(name, key, window, now))
  {
    var r, _ := store.Incr(name, key, window, now, now);
    failed := r.Err?;
  }

  // One turn of the loop: the counter moves if it counts this request.
  method IncrementIfCounted(defs: Definitions, name: string, store: CounterStore, req: RequestContext, now: Instant)
    returns (failed: bool)
    requires store.Valid() && name in defs
    modifies store.Repr
    ensures store.Valid() && fresh(store.Repr - old(store.Repr))
    ensures store.State() == if Counts(defs, name, req)
                             then Next(old(store.State()), Incr(name, CounterKey(defs[name].keyField, req), defs[name].window, now))
                             else old(store.State())
  {
    var def := defs[name];
    if !WhenMatches(def.when, req) || CounterKey(def.keyField, req) == "" { return false; }
    failed := IncrementOne(store, name, CounterKey(def.keyField, req), def.window, now);
  }

  lemma AppliedOneTurn(defs: Definitions, order: seq<string>, name: string, req: RequestContext, at: Instant, s: CounterState)
    requires name in defs
    ensures var before := Applied(s, Increments(defs, order, req, at));
            Applied(s, Increments(defs, order + [name], req, at))
            == if Counts(defs, name, req) then Next(before, Incr(name, CounterKey(defs[name].keyField, req), defs[name].window, at)) else before
  {
    IncrementsOneMore(defs, order, name, req, at);
    if Counts(defs, name, req) {
      AppliedOneMore(s, Increments(defs, order, req, at), Incr(name, CounterKey(defs[name].keyField, req), defs[name].window, at));
    }
  }

  // IncrementForRequest visits the definitions in whatever order the map
  // yields them; a counter with an invalid window only reports an error.
  method IncrementForRequest(defs: Definitions, store: CounterStore, req: RequestContext, now: Instant)
    returns (errors: nat, ghost order: seq<string>)
    requires store.Valid()
    modifies store.Repr
    ensures store.Valid() && fresh(store.Repr - old(store.Repr))
    ensures Enumerates(order, defs)
    ensures store.State() == Applied(old(store.State()), Increments(defs, order, req, now))
  {
    errors, order := 0, [];
    var todo := defs.Keys;
    while todo != {}
      invariant todo <= defs.Keys
      invariant store.Valid() && fresh(store.Repr - old(store.Repr))
      invariant forall name :: name in order <==> name in defs && name !in todo
      invariant forall i, j :: 0 <= i < j < |order| ==> order[i] != order[j]
      invariant store.State() == Applied(old(store.State()), Increments(defs, order, req, now))
      decreases todo
    {
      var name :| name in todo;
      AppliedOneTurn(defs, order, name, req, now, old(store.State()));
      var failed := IncrementIfCounted(defs, name, store, req, now);
      if failed { errors := errors + 1; }
      order := order + [name];
      todo := todo - {name};
    }
  }

  // --------------------------------------------------- end-to-end counting

  // A request whose evaluation succeeded, so that its counters were bumped.
  datatype Served = Served(req: RequestContext, at: Instant, order: seq<string>)

  function LogOf(defs: Definitions, served: seq<Served>): seq<Event> {
    if served == [] then []
    else
      var r := served[|served| - 1];
      LogOf(defs, served[..|served| - 1]) + Increments(defs, r.order, r.req, r.at)
  }

  // Did this request count towards (name, key) in the window of `now`?
  predicate Hits(defs: Definitions, name: string, key: string, req: RequestContext, at: Instant, now: Instant)
    requires name in defs && defs[name].window > 0
  {
    Counts(defs, name, req) && CounterKey(defs[name].keyField, req) == key && at / defs[name].window == now / defs[name].window
  }

  // How many earlier requests a counter rule has to answer for.
  function Seen(defs: Definitions, served: seq<Served>, name: string, key: string, now: Instant): nat
    requires name in defs && defs[name].window > 0
  {
    if served == [] then 0
    else
      var r := served[|served| - 1];
      Seen(defs, served[..|served| - 1], name, key, now)
      + if Hits(defs, name, key, r.req, r.at, now) then 1 else 0
  }

  lemma CountOneMore(log: seq<Event>, e: Event, name: string, key: string, window: int, now: Instant)
    requires e.Incr? && window > 0
    ensures Count(log + [e], name, key, window, now)
         == Count(log, name, key, window, now)
            + if e.name == name && e.key == key && e.at / window == now / window then 1 else 0
  {
    assert (log + [e])[..|log|] == log;
  }

  lemma {:induction false} CountOfRequest(log: seq<Event>, defs: Definitions, order: seq<string>, req: RequestContext, at: Instant,
                                          name: string, key: string, now: Instant)
    requires name in defs && Proper(defs)
    requires forall i, j :: 0 <= i < j < |order| ==> order[i] != order[j]
    ensures Count(log + Increments(defs, order, req, at), name, key, defs[name].window, now)
         == Count(log, name, key, defs[name].window, now)
            + if name in order && Hits(defs, name, key, req, at, now) then 1 else 0
  {
    if order == [] {
      assert log + Increments(defs, order, req, at) == log;
    } else {
      var last, rest := order[|order| - 1], order[..|order| - 1];
      CountOfRequest(log, defs, rest, req, at, name, key, now);
      var events := Increments(defs, rest, req, at);
      assert order == rest + [last] && last !in rest;
      if Counts(defs, last, req) {
        var e := Incr(last, CounterKey(defs[last].keyField, req), defs[last].window, at);
        assert log + Increments(defs, order, req, at) == (log + events) + [e];
        CountOneMore(log + events, e, name, key, defs[name].window, now);
      } else {
        assert Increments(defs, order, req, at) == events;
      }
    }
  }

  lemma {:induction false} LogCountsRequests(defs: Definitions, served: seq<Served>, name: string, key: string, now: Instant)
    requires Proper(defs) && name in defs
    requires forall r :: r in served ==> Enumerates(r.order, defs)
    ensures Count(LogOf(defs, served), name, key, defs[name].window, now) == Seen(defs, served, name, key, now)
  {
    if served != [] {
      var r, earlier := served[|served| - 1], served[..|served| - 1];
      assert r in served;
      LogCountsRequests(defs, earlier, name, key, now);
      CountOfRequest(LogOf(defs, earlier), defs, r.order, r.req, r.at, name, key, now);
    }
  }

  ghost predicate InOrder(served: seq<Served>, now: Instant) {
    (forall i, j :: 0 <= i <= j < |served| ==> served[i].at <= served[j].at)
    && forall i :: 0 <= i < |served| ==> served[i].at <= now
  }

  lemma {:induction false} IncrementEvents(defs: Definitions, order: seq<string>, req: RequestContext, at: Instant)
    requires Proper(defs)
    ensures forall e :: e in Increments(defs, order, req, at) ==>
              e.Incr? && e.name in defs && e.window == defs[e.name].window && e.at == at
  {
    if order != [] { IncrementEvents(defs, order[..|order| - 1], req, at); }
  }

  lemma {:induction false} LogEvents(defs: Definitions, served: seq<Served>, now: Instant)
    requires Proper(defs) && InOrder(served, now)
    ensures var log := LogOf(defs, served);
            && Chronological(log)
            && forall e :: e in log ==> e.name in defs && e.window == defs[e.name].window && e.at <= now
  {
    if served != [] {
      var r, earlier := served[|served| - 1], served[..|served| - 1];
      LogEvents(defs, earlier, r.at);
      IncrementEvents(defs, r.order, r.req, r.at);
      var log, more := LogOf(defs, earlier), Increments(defs, r.order, r.req, r.at);
      var all: seq<Event> := log + more;
      forall i, j | 0 <= i <= j < |all| ensures all[i].at <= all[j].at {
        assert all[i] in log || all[i] in more;
        assert all[j] in log || all[j] in more;
      }
    }
  }

  // What cachingResolver.Get answers from a given store state, errors as 0.
  function Resolve(defs: Definitions, s: CounterState, req: RequestContext, name: string, now: Instant): int {
    if name !in defs || CounterKey(defs[name].keyField, req) == "" then 0
    else match Reading(s, name, CounterKey(defs[name].keyField, req), defs[name].window, now)
    case Ok(v) => v
    case Err(_) => 0
  }

  // ------------------------------------------------ which requests count

  // Requests of one visitor, one path, or both, by the counter's key field.
  predicate SameKey(field: string, a: RequestContext, b: RequestContext) {
    || (field == "ip" && a.ip == b.ip)
    || (field == "path" && a.path == b.path)
    || (field == "ip_path" && a.ip + "|" + a.path == b.ip + "|" + b.path)
  }

  // The key field is known, and the request has that key.
  predicate Keyed(field: string, req: RequestContext) {
    (field == "ip" && req.ip != "") || (field == "path" && req.path != "") || field == "ip_path"
  }

  // The text a counter condition names a pow_status by.
  predicate IsStatus(text: string, status: PowStatus) {
    || (text == "missing" && status.Missing?) || (text == "valid" && status.Valid?) || (text == "invalid" && status.Invalid?)
    || (text == "expired" && status.Expired?) || (text == "used_up" && status.UsedUp?)
    || (text == "mode_disabled" && status.ModeDisabled?) || (text == "unverifiable" && status.Unverifiable?)
  }

  // All conditions that are given hold of the request.
  predicate Meets(when_: When, req: RequestContext) {
    && (when_.isProtected == None || when_.isProtected == Some(req.isProtected))
    && (when_.isRangeRequest == None || when_.isRangeRequest == Some(req.isRangeRequest))
    && (when_.powStatus == "" || IsStatus(when_.powStatus, req.powStatus))
    && (when_.powMode == "" || when_.powMode == req.powMode)
  }

  lemma MeetsIff(when_: When, req: RequestContext)
    ensures WhenMatches(when_, req) <==> Meets(when_, req)
  {
    StatusTexts();
  }

  lemma StatusTexts()
    ensures forall text, status :: IsStatus(text, status) <==> text == StatusText(status)
  {
  }

  lemma SameKeyIff(field: string, a: RequestContext, b: RequestContext)
    ensures Keyed(field, a) <==> CounterKey(field, a) != ""
    ensures Keyed(field, a) ==> (SameKey(field, a, b) <==> CounterKey(field, b) == CounterKey(field, a))
  {
    assert a.ip + "|" + a.path != "";
  }

  // The increments of one request: one for each counter in `order` whose
  // conditions it meets and whose key it has, under that key.
  lemma {:induction false} IncrementsSpelledOut(defs: Definitions, order: seq<string>, req: RequestContext, at: Instant, e: Event)
    ensures e in Increments(defs, order, req, at)
       <==> && e.Incr? && e.name in order && e.name in defs && e.at == at && e.window == defs[e.name].window
            && Meets(defs[e.name].when, req) && Keyed(defs[e.name].keyField, req)
            && e.key == match defs[e.name].keyField
                        case "ip" => req.ip
                        case "path" => req.path
                        case _ => req.ip + "|" + req.path
  {
    if order != [] {
      var last, rest := order[|order| - 1], order[..|order| - 1];
      IncrementsSpelledOut(defs, rest, req, at, e);
      assert order == rest + [last];
      if last in defs {
        MeetsIff(defs[last].when, req);
        SameKeyIff(defs[last].keyField, req, req);
      }
    }
  }

  // How many of the served requests count for this one: same key, conditions
  // met, counted in the window of `now`.
  function Earlier(def: CounterDef, served: seq<Served>, req: RequestContext, now: Instant): nat
    requires def.window > 0
  {
    if served == [] then 0
    else
      var r := served[|served| - 1];
      Earlier(def, served[..|served| - 1], req, now)
      + if SameKey(def.keyField, req, r.req) && Meets(def.when, r.req) && r.at / def.window == now / def.window then 1 else 0
  }

  lemma EarlierOneMore(def: CounterDef, served: seq<Served>, r: Served, req: RequestContext, now: Instant)
    requires def.window > 0
    ensures Earlier(def, served + [r], req, now)
         == Earlier(def, served, req, now)
            + if SameKey(def.keyField, req, r.req) && Meets(def.when, r.req) && r.at / def.window == now / def.window then 1 else 0
  {
    assert (served + [r])[..|served|] == served;
  }

  lemma {:induction false} SeenIsEarlier(defs: Definitions, served: seq<Served>, req: RequestContext, name: string, now: Instant)
    requires name in defs && defs[name].window > 0 && Keyed(defs[name].keyField, req)
    ensures Seen(defs, served, name, CounterKey(defs[name].keyField, req), now) == Earlier(defs[name], served, req, now)
  {
    if served != [] {
      var r := served[|served| - 1];
      SeenIsEarlier(defs, served[..|served| - 1], req, name, now);
      MeetsIff(defs[name].when, r.req);
      SameKeyIff(defs[name].keyField, req, r.req);
    }
  }

  // The value a counter rule sees is the number of earlier evaluated
  // requests that met the conditions, had the same key, and were counted in
  // the current window; the request being evaluated is not among them.
  // Unknown counters, unknown key fields and empty keys read as zero.
  lemma CounterRuleSeesEarlierRequests(defs: Definitions, served: seq<Served>, req: RequestContext, name: string, now: Instant)
    requires Proper(defs) && InOrder(served, now) && forall r :: r in served ==> Enumerates(r.order, defs)
    ensures Resolve(defs, After(LogOf(defs, served)), req, name, now)
         == if name in defs && Keyed(defs[name].keyField, req) then Earlier(defs[name], served, req, now) else 0
  {
    if name in defs {
      SameKeyIff(defs[name].keyField, req, req);
      if Keyed(defs[name].keyField, req) {
        var windows := (n: string) => if n in defs then defs[n].window else 0;
        var log, key := LogOf(defs, served), CounterKey(defs[name].keyField, req);
        LogEvents(defs, served, now);
        LogCountsRequests(defs, served, name, key, now);
        if log != [] { assert log[|log| - 1] in log; }
        GetIsPlainCount(windows, log, name, key, now);
        SeenIsEarlier(defs, served, req, name, now);
      }
    }
  }

  // ----------------------------------------------------------- one snapshot

  // One read during an evaluation: the counter and what the store said.
  datatype Read = Read(name: string, reading: Result<int, CounterError>)

  // (value, cache): a cached value wins; failures count as 0 and are not kept.
  function CachedGet(cache: map<string, int>, r: Read): (int, map<string, int>) {
    if r.name in cache then (cache[r.name], cache)
    else match r.reading
    case Ok(v) => (v, cache[r.name := v])
    case Err(_) => (0, cache)
  }

  class CachingResolver {
    const defs: Definitions
    const req: RequestContext
    const store: CounterStore
    var cache: map<string, int>

    constructor (defs: Definitions, req: RequestContext, store: CounterStore)
      ensures this.defs == defs && this.req == req && this.store == store && cache == map[]
    {
      this.defs, this.req, this.store, cache := defs, req, store, map[];
    }

    method Get(name: string, now: Instant) returns (v: int)
      requires store.Valid() && this !in store.Repr
      modifies this
      ensures name in old(cache) ==> v == old(cache)[name]
      ensures name !in old(cache) ==> v == Resolve(defs, store.State(), req, name, now)
      ensures cache == if name in old(cache) || name !in defs || CounterKey(defs[name].keyField, req) == "" then old(cache)
                       else CachedGet(old(cache), Read(name, Reading(store.State(), name, CounterKey(defs[name].keyField, req), defs[name].window, now))).1
    {
      if name in cache { return cache[name]; }
      if name !in defs { return 0; }
      var key := CounterKey(defs[name].keyField, req);
      if key == "" { return 0; }
      var r := store.Get(name, key, defs[name].window, now);
      match r {
        case Err(_) => return 0;
        case Ok(value) =>
          cache := cache[name := value];
          return value;
      }
    }
  }

  function Reads(cache: map<string, int>, rs: seq<Read>): seq<int>
    decreases |rs|
  {
    if rs == [] then []
    else [CachedGet(cache, rs[0]).0] + Reads(CachedGet(cache, rs[0]).1, rs[1..])
  }

  lemma {:induction false} CachedStays(cache: map<string, int>, rs: seq<Read>, j: nat)
    requires j < |rs| && rs[j].name in cache
    ensures |Reads(cache, rs)| == |rs| && Reads(cache, rs)[j] == cache[rs[j].name]
    decreases |rs|
  {
    ReadsLength(cache, rs);
    if j > 0 { CachedStays(CachedGet(cache, rs[0]).1, rs[1..], j - 1); }
  }

  lemma {:induction false} ReadsLength(cache: map<string, int>, rs: seq<Read>)
    ensures |Reads(cache, rs)| == |rs|
    decreases |rs|
  {
    if rs != [] { ReadsLength(CachedGet(cache, rs[0]).1, rs[1..]); }
  }

  // However the store moves meanwhile, one evaluation sees one value of each
  // counter from the first successful read on.
  lemma {:induction false} OneSnapshotPerEvaluation(cache: map<string, int>, rs: seq<Read>, i: nat, j: nat)
    requires i < j < |rs| && rs[i].name == rs[j].name && rs[i].reading.Ok?
    ensures |Reads(cache, rs)| == |rs| && Reads(cache, rs)[i] == Reads(cache, rs)[j]
    decreases |rs|
  {
    ReadsLength(cache, rs);
    var rest := CachedGet(cache, rs[0]).1;
    if i == 0 { CachedStays(rest, rs[1..], j - 1); } else { OneSnapshotPerEvaluation(rest, rs[1..], i - 1, j - 1); }
  }
}
