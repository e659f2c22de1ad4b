// What the rules see of the counters over a run of whole requests: the
// contract of Verify, composed with the count over the requests it served.
module ServiceCounting {
  import opened Prelude
  import opened RuleChains
  import opened Auth
  import opened Service
  import CounterStores
  import Counting
  import Verdicts

  // One call of Verify with what its contract speaks about. Requests stopped
  // at the bypass, header and pending gates are not `gated` in.
  datatype Call = Call(req: AuthRequest, seen: string -> int, order: seq<string>, clk: Clock, gated: bool)

  // The request as the rules see it.
  ghost function ContextOf(svc: AuthService, call: Call, counters: string -> int): RequestContext {
    var (token, sign) := TokenOf(svc, call);
    RiskContext(svc.wiring, call.req, token, sign, ClassOf(svc, call), counters)
  }

  ghost function TokenOf(svc: AuthService, call: Call): (string, string) {
    Verdicts.TokenOf(svc.wiring, svc.cfg, call.req)
  }

  ghost function ClassOf(svc: AuthService, call: Call): Classification {
    Verdicts.ClassOf(svc.wiring, svc.cfg, call.req, call.clk.unix.classify)
  }

  // Counter states between the calls, starting from an empty store.
  ghost predicate IsRun(svc: AuthService, states: seq<Option<CounterStores.CounterState>>, calls: seq<Call>) {
    && |states| == |calls| + 1 && states[0] == Some(Counting.After([]))
    && forall i :: 0 <= i < |calls| ==> Follows(svc, states[i], states[i + 1], calls[i])
  }

  ghost predicate Follows(svc: AuthService, before: Option<CounterStores.CounterState>, after: Option<CounterStores.CounterState>, call: Call) {
    if call.gated then svc.GatedCounters(before, after, call.req, call.seen, call.order, call.clk) else after == before
  }

  ghost predicate Served(svc: AuthService, call: Call) {
    var (token, sign) := TokenOf(svc, call);
    call.gated && Decides(svc.wiring, call.req, token, sign, ClassOf(svc, call), call.seen)
  }

  ghost function RecordOf(svc: AuthService, call: Call): Counting.Served {
    Counting.Served(ContextOf(svc, call, call.seen), call.clk.count, call.order)
  }

  // The requests that reached a decision and were counted.
  ghost function ServedBy(svc: AuthService, calls: seq<Call>): seq<Counting.Served> {
    if calls == [] then []
    else
      var call := calls[|calls| - 1];
      ServedBy(svc, calls[..|calls| - 1])
      + if Served(svc, call) then [RecordOf(svc, call)] else []
  }

  // Counting follows evaluation, and requests are counted one after another.
  ghost predicate InSequence(calls: seq<Call>) {
    forall i, j :: 0 <= i < j < |calls| ==>
      calls[i].clk.count <= calls[j].clk.evaluate && calls[i].clk.count <= calls[j].clk.count
  }

  lemma {:induction false} AppliedIsAfter(log: seq<Counting.Event>, events: seq<Counting.Event>)
    ensures Counting.Applied(Counting.After(log), events) == Counting.After(log + events)
  {
    if events == [] {
      assert log + events == log;
    } else {
      var init, e := events[..|events| - 1], events[|events| - 1];
      AppliedIsAfter(log, init);
      assert (log + events)[..|log + events| - 1] == log + init && (log + events)[|log + events| - 1] == e;
    }
  }

  lemma OneMoreServed(defs: Counting.Definitions, served: seq<Counting.Served>, r: Counting.Served)
    ensures Counting.LogOf(defs, served + [r]) == Counting.LogOf(defs, served) + Counting.Increments(defs, r.order, r.req, r.at)
  {
    assert (served + [r])[..|served|] == served;
  }

  // One call bumps the counters of its own request, if it was served.
  lemma CallCounts(svc: AuthService, before: Option<CounterStores.CounterState>, after: Option<CounterStores.CounterState>, call: Call)
    requires before.Some? && Follows(svc, before, after, call)
    ensures var r := RecordOf(svc, call);
            if Served(svc, call)
            then after == Some(Counting.Applied(before.value, Counting.Increments(svc.definitions, r.order, r.req, r.at)))
                 && Counting.Enumerates(r.order, svc.definitions)
            else after == before
  {
  }

  lemma OneMoreCall(svc: AuthService, calls: seq<Call>, i: nat)
    requires i < |calls|
    ensures ServedBy(svc, calls[..i + 1])
         == if Served(svc, calls[i]) then ServedBy(svc, calls[..i]) + [RecordOf(svc, calls[i])] else ServedBy(svc, calls[..i])
  {
    assert calls[..i + 1][..i] == calls[..i] && calls[..i + 1][i] == calls[i];
  }

  // The store always holds exactly the counts of the served requests.
  lemma {:induction false} StateIsLog(svc: AuthService, states: seq<Option<CounterStores.CounterState>>, calls: seq<Call>, i: nat)
    requires IsRun(svc, states, calls) && i <= |calls|
    ensures states[i] == Some(Counting.After(Counting.LogOf(svc.definitions, ServedBy(svc, calls[..i]))))
    ensures forall r :: r in ServedBy(svc, calls[..i]) ==> Counting.Enumerates(r.order, svc.definitions)
  {
    if i > 0 {
      StateIsLog(svc, states, calls, i - 1);
      var call, served := calls[i - 1], ServedBy(svc, calls[..i - 1]);
      OneMoreCall(svc, calls, i - 1);
      assert Follows(svc, states[i - 1], states[i - 1 + 1], call);
      CallCounts(svc, states[i - 1], states[i], call);
      if Served(svc, call) {
        var r := RecordOf(svc, call);
        OneMoreServed(svc.definitions, served, r);
        AppliedIsAfter(Counting.LogOf(svc.definitions, served), Counting.Increments(svc.definitions, r.order, r.req, r.at));
      }
    }
  }

  lemma OneMoreInOrder(served: seq<Counting.Served>, r: Counting.Served, last: CounterStores.Instant)
    requires Counting.InOrder(served, r.at) && Counting.InOrder(served, last) && r.at <= last
    ensures Counting.InOrder(served + [r], last)
  {
  }

  lemma {:induction false} ServedTimes(svc: AuthService, calls: seq<Call>, i: nat, last: CounterStores.Instant)
    requires i <= |calls| && InSequence(calls)
    requires forall j :: 0 <= j < i ==> calls[j].clk.count <= last
    ensures Counting.InOrder(ServedBy(svc, calls[..i]), last)
  {
    if i > 0 {
      ServedTimes(svc, calls, i - 1, last);
      ServedTimes(svc, calls, i - 1, calls[i - 1].clk.count);
      OneMoreCall(svc, calls, i - 1);
      OneMoreInOrder(ServedBy(svc, calls[..i - 1]), RecordOf(svc, calls[i - 1]), last);
    }
  }

  // ------------------------------------------- over the requests themselves

  // Both requests belong to one visitor, one path, or both.
  predicate SameVisit(field: string, a: AuthRequest, b: AuthRequest) {
    || (field == "ip" && a.realIP == b.realIP)
    || (field == "path" && a.originalURI == b.originalURI)
    || (field == "ip_path" && a.realIP + "|" + a.originalURI == b.realIP + "|" + b.originalURI)
  }

  predicate HasKey(field: string, req: AuthRequest) {
    (field == "ip" && req.realIP != "") || (field == "path" && req.originalURI != "") || field == "ip_path"
  }

  // The counter's conditions on path protection, ranges and the token.
  ghost predicate Meets(svc: AuthService, when_: Counting.When, call: Call) {
    var c := ClassOf(svc, call);
    && (when_.isProtected.Some? ==> when_.isProtected.value == svc.wiring.shouldProtect(call.req.originalURI))
    && (when_.isRangeRequest.Some? ==> when_.isRangeRequest.value == IsRangeRequest(svc.wiring.lib, call.req))
    && (when_.powStatus != "" ==> Counting.IsStatus(when_.powStatus, c.status))
    && (when_.powMode != "" ==> when_.powMode == c.mode)
  }

  // How many of these calls were decided, belong with this request, meet the
  // conditions, and were counted in the window of `now`.
  ghost function EarlierCalls(svc: AuthService, def: Counting.CounterDef, calls: seq<Call>, req: AuthRequest, now: CounterStores.Instant): nat
    requires def.window > 0
  {
    if calls == [] then 0
    else
      var call := calls[|calls| - 1];
      EarlierCalls(svc, def, calls[..|calls| - 1], req, now)
      + if Served(svc, call) && SameVisit(def.keyField, req, call.req) && Meets(svc, def.when, call)
           && call.clk.count / def.window == now / def.window then 1 else 0
  }

  lemma ContextMeets(svc: AuthService, when_: Counting.When, call: Call, counters: string -> int)
    ensures Counting.Meets(when_, ContextOf(svc, call, counters)) <==> Meets(svc, when_, call)
  {
  }

  lemma ContextKeys(svc: AuthService, field: string, a: Call, b: Call)
    ensures Counting.SameKey(field, ContextOf(svc, a, NO_COUNTERS), ContextOf(svc, b, b.seen)) <==> SameVisit(field, a.req, b.req)
  {
  }

  lemma {:induction false} EarlierIsCalls(svc: AuthService, def: Counting.CounterDef, calls: seq<Call>, call: Call, now: CounterStores.Instant)
    requires def.window > 0
    ensures Counting.Earlier(def, ServedBy(svc, calls), ContextOf(svc, call, NO_COUNTERS), now) == EarlierCalls(svc, def, calls, call.req, now)
  {
    if calls != [] {
      var last, rest := calls[|calls| - 1], calls[..|calls| - 1];
      EarlierIsCalls(svc, def, rest, call, now);
      if Served(svc, last) {
        var r := RecordOf(svc, last);
        Counting.EarlierOneMore(def, ServedBy(svc, rest), r, ContextOf(svc, call, NO_COUNTERS), now);
        ContextMeets(svc, def.when, last, last.seen);
        ContextKeys(svc, def.keyField, call, last);
        assert ServedBy(svc, calls) == ServedBy(svc, rest) + [r];
      } else {
        assert ServedBy(svc, calls) == ServedBy(svc, rest);
      }
    }
  }

  // In every request of a run, the value a counter rule sees is the number of
  // earlier requests that were decided, met the counter's conditions, had the
  // same address or path as its key field says, and were counted in the
  // current window. A counter without a definition, with an unknown key field
  // or for an empty key reads as zero.
  lemma RulesSeeEarlierRequests(svc: AuthService, states: seq<Option<CounterStores.CounterState>>, calls: seq<Call>, i: nat, name: string)
    requires IsRun(svc, states, calls) && InSequence(calls) && i < |calls| && calls[i].gated && svc.wiring.engine.Some?
    requires Counting.Proper(svc.definitions)
    ensures calls[i].seen(name)
         == if name in svc.definitions && HasKey(svc.definitions[name].keyField, calls[i].req)
            then EarlierCalls(svc, svc.definitions[name], calls[..i], calls[i].req, calls[i].clk.evaluate) else 0
  {
    var call, served := calls[i], ServedBy(svc, calls[..i]);
    StateIsLog(svc, states, calls, i);
    ServedTimes(svc, calls, i, call.clk.evaluate);
    assert Follows(svc, states[i], states[i + 1], call);
    Counting.CounterRuleSeesEarlierRequests(svc.definitions, served, ContextOf(svc, call, NO_COUNTERS), name, call.clk.evaluate);
    if name in svc.definitions { EarlierIsCalls(svc, svc.definitions[name], calls[..i], call, call.clk.evaluate); }
  }
}
