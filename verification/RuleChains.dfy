// The iptables-style rule engine of internal/risk/engine.go: what a
// recursive evaluation of the chains returns, and the imperative evaluator
// that appends to a shared trace, a shared mark list and a visit counter.
module RuleChains {
  import opened Prelude

  // ---------------------------------------------------------------- data

  datatype Target = Accept | Reject | RateLimit | TooMany | RequirePow | Jump | Return | Log | Mark

  predicate IsTerminal(t: Target) {
    t.Accept? || t.Reject? || t.RateLimit? || t.TooMany? || t.RequirePow?
  }

  // The pow_status values a request can carry.
  datatype PowStatus = Missing | Valid | Invalid | Expired | UsedUp | ModeDisabled | Unverifiable

  function StatusText(s: PowStatus): string {
    match s
    case Missing => "missing"
    case Valid => "valid"
    case Invalid => "invalid"
    case Expired => "expired"
    case UsedUp => "used_up"
    case ModeDisabled => "mode_disabled"
    case Unverifiable => "unverifiable"
  }

  // Everything a rule can see; `counters` is the snapshot that the counter
  // resolver exposes during one evaluation.
  datatype RequestContext = RequestContext(
    path: string, method_: string, args: string, ip: string, userAgent: string,
    hasToken: bool, hasSign: bool, powStatus: PowStatus, powMode: string,
    isProtected: bool, isRangeRequest: bool, counters: string -> int)

  type Matcher = RequestContext -> bool

  datatype Rule = Rule(
    name: string, matches: Matcher, target: Target, chain: string,
    status: int, limitRate: string, reason: string, mark: string)

  datatype Policy = Policy(target: Target, status: int, limitRate: string, reason: string)

  datatype Chain = Chain(rules: seq<Rule>, policy: Policy)

  type ChainMap = map<string, Chain>

  // Marks are attached once, by the entry point (engine.go:61).
  datatype Decision = Decision(
    target: Target, status: int, limitRate: string, reason: string, chain: string, ruleName: string)

  datatype TraceStep = TraceStep(
    chain: string, rule: string, matched: bool, target: Option<Target>, jumpTo: string)

  datatype Outcome = Decided(decision: Decision) | ChainNotFound(name: string)

  // The accumulators of one evaluation. `visited[u]` counts entries into the
  // chain whose upper-case name is u.
  datatype EvalState = EvalState(trace: seq<TraceStep>, marks: seq<string>, visited: multiset<string>)

  const VISIT_LIMIT := 8

  // A compiled configuration: compileChain refuses non-terminal policies.
  ghost predicate Compiled(chains: ChainMap) {
    forall k :: k in chains ==> IsTerminal(chains[k].policy.target)
  }

  ghost predicate DistinctUpToCase(chains: ChainMap) {
    forall j, k :: j in chains && k in chains && Upper(j) == Upper(k) ==> j == k
  }

  // ----------------------------------------------------- decisions, steps

  function DefaultStatus(t: Target): int {
    match t
    case Accept => 200
    case RateLimit => 200
    case Reject => 403
    case RequirePow => 403
    case TooMany => 429
    case _ => 0
  }

  function DecisionFromRule(chain: string, rule: Rule): Decision {
    Decision(rule.target, if rule.status == 0 then DefaultStatus(rule.target) else rule.status,
             rule.limitRate, rule.reason, chain, rule.name)
  }

  function PolicyDecision(chain: string, policy: Policy): Decision {
    Decision(policy.target, policy.status, policy.limitRate, policy.reason, chain, "policy")
  }

  function DepthExceeded(chain: string): Decision {
    Decision(Reject, 500, "", "chain_depth_exceeded", chain, "")
  }

  function OrElse(reason: string, fallback: string): string {
    if reason == "" then fallback else reason
  }

  function StepOf(chain: string, rule: Rule, ctx: RequestContext): TraceStep {
    if rule.matches(ctx) then
      TraceStep(chain, rule.name, true, Some(rule.target), if rule.target.Jump? then rule.chain else "")
    else
      TraceStep(chain, rule.name, false, None, "")
  }

  predicate CarriesMark(rule: Rule, ctx: RequestContext) {
    rule.matches(ctx) && rule.target.Mark? && rule.mark != ""
  }

  // lookupChain: an exact hit first, then any key equal up to case.
  ghost function FindKey(keys: set<string>, name: string): (r: Option<string>)
    ensures r.Some? ==> r.value in keys && Upper(r.value) == Upper(name)
    ensures r.None? ==> forall k :: k in keys ==> Upper(k) != Upper(name)
  {
    if name in keys then Some(name)
    else if exists k :: k in keys && Upper(k) == Upper(name) then
      var k :| k in keys && Upper(k) == Upper(name);
      Some(k)
    else None
  }

  // ------------------------------------------------- the visit-guard budget

  ghost function UpperNames(keys: set<string>): set<string> {
    set k | k in keys :: Upper(k)
  }

  ghost function Twice(m: multiset<string>): (r: multiset<string>)
    ensures |r| == 2 * |m|
    ensures forall x :: r[x] == 2 * m[x]
  {
    m + m
  }

  // VISIT_LIMIT copies of every chain name.
  ghost function Allowance(keys: set<string>): (r: multiset<string>)
    ensures |r| == VISIT_LIMIT * |UpperNames(keys)|
    ensures forall x :: r[x] == if x in UpperNames(keys) then VISIT_LIMIT else 0
  {
    Twice(Twice(Twice(multiset(UpperNames(keys)))))
  }

  ghost function Room(keys: set<string>, visited: multiset<string>): nat {
    |Allowance(keys) - visited|
  }

  lemma RoomShrinks(keys: set<string>, visited: multiset<string>, u: string)
    requires u in UpperNames(keys) && visited[u] < VISIT_LIMIT
    ensures Room(keys, visited + multiset{u}) < Room(keys, visited)
  {
    var a := Allowance(keys);
    assert a - visited == (a - (visited + multiset{u})) + multiset{u};
  }

  lemma RoomMonotone(keys: set<string>, v: multiset<string>, w: multiset<string>)
    requires v <= w
    ensures Room(keys, w) <= Room(keys, v)
  {
    var a := Allowance(keys);
    assert a - v == (a - w) + ((a - v) - (a - w));
  }

  // ------------------------------------------------- recursive evaluation

  ghost function EvalChain(chains: ChainMap, name: string, ctx: RequestContext, st: EvalState)
    : (r: (Outcome, EvalState))
    ensures st.visited <= r.1.visited
    decreases Room(chains.Keys, st.visited), 0
  {
    match FindKey(chains.Keys, name)
    case None => (ChainNotFound(name), st)
    case Some(k) =>
      var u := Upper(name);
      var st' := st.(visited := st.visited + multiset{u});
      if st'.visited[u] > VISIT_LIMIT then
        (Decided(DepthExceeded(name)), st')
      else
        RoomShrinks(chains.Keys, st.visited, u);
        EvalRules(chains, name, chains[k].policy, chains[k].rules, ctx, st')
  }

  ghost function EvalRules(chains: ChainMap, name: string, policy: Policy, rules: seq<Rule>,
                           ctx: RequestContext, st: EvalState): (r: (Outcome, EvalState))
    ensures st.visited <= r.1.visited
    decreases Room(chains.Keys, st.visited), 1 + |rules|
  {
    if rules == [] then (Decided(PolicyDecision(name, policy)), st)
    else
      var rule := rules[0];
      var st' := Recorded(name, rule, ctx, st);
      if !rule.matches(ctx) || rule.target.Log? || rule.target.Mark? then
        EvalRules(chains, name, policy, rules[1..], ctx, st')
      else if rule.target.Return? then
        (Decided(PolicyDecision(name, policy)), st')
      else if rule.target.Jump? then
        var (out, inner) := EvalChain(chains, rule.chain, ctx, st');
        if out.Decided? && !IsTerminal(out.decision.target) then
          RoomMonotone(chains.Keys, st.visited, inner.visited);
          EvalRules(chains, name, policy, rules[1..], ctx, inner)
        else
          (Outward(out, rule.reason), inner)
      else
        (Decided(DecisionFromRule(name, rule)), st')
  }

  // The accumulators after looking at one rule.
  ghost function Recorded(name: string, rule: Rule, ctx: RequestContext, st: EvalState): EvalState {
    EvalState(st.trace + [StepOf(name, rule, ctx)],
              if CarriesMark(rule, ctx) then st.marks + [rule.mark] else st.marks,
              st.visited)
  }

  // A decision passing outward through a JUMP takes that rule's reason when
  // it has none of its own.
  function Outward(out: Outcome, reason: string): Outcome {
    match out
    case Decided(d) => Decided(d.(reason := OrElse(d.reason, reason)))
    case ChainNotFound(_) => out
  }

  const START := EvalState([], [], multiset{})

  // EvaluateWithEntry: an empty entry name means INPUT.
  ghost function Evaluate(chains: ChainMap, entry: string, ctx: RequestContext): (Outcome, EvalState) {
    EvalChain(chains, OrElse(entry, "INPUT"), ctx, START)
  }

  // ------------------------------------------------- the imperative engine

  class Evaluation {
    var trace: seq<TraceStep>
    var marks: seq<string>
    var visited: multiset<string>

    constructor ()
      ensures State() == START
    {
      trace, marks, visited := [], [], multiset{};
    }

    ghost function State(): EvalState
      reads this
    {
      EvalState(trace, marks, visited)
    }

    method LookupChain(chains: ChainMap, name: string) returns (r: Option<Chain>)
      requires DistinctUpToCase(chains)
      ensures r == match FindKey(chains.Keys, name) case None => None case Some(k) => Some(chains[k])
    {
      if name in chains { return Some(chains[name]); }
      var todo := chains.Keys;
      while todo != {}
        invariant todo <= chains.Keys
        invariant forall k :: k in chains && k !in todo ==> Upper(k) != Upper(name)
        decreases todo
      {
        var k :| k in todo;
        if Upper(k) == Upper(name) { return Some(chains[k]); }
        todo := todo - {k};
      }
      return None;
    }

    method Record(step: TraceStep)
      modifies this`trace
      ensures trace == old(trace) + [step]
    {
      trace := trace + [step];
    }

    method RunChain(chains: ChainMap, name: string, ctx: RequestContext) returns (out: Outcome)
      requires DistinctUpToCase(chains)
      modifies this
      ensures (out, State()) == EvalChain(chains, name, ctx, old(State()))
      decreases Room(chains.Keys, visited), 0
    {
      var found := LookupChain(chains, name);
      if found.None? { return ChainNotFound(name); }
      visited := visited + multiset{Upper(name)};
      if visited[Upper(name)] > VISIT_LIMIT { return Decided(DepthExceeded(name)); }
      RoomShrinks(chains.Keys, old(visited), Upper(name));
      out := RunRules(chains, name, found.value, ctx);
    }

    // The rule loop of one chain.
    method RunRules(chains: ChainMap, name: string, chain: Chain, ctx: RequestContext) returns (out: Outcome)
      requires DistinctUpToCase(chains)
      modifies this
      ensures (out, State()) == EvalRules(chains, name, chain.policy, chain.rules, ctx, old(State()))
      decreases Room(chains.Keys, visited), 1
    {
      ghost var goal := EvalRules(chains, name, chain.policy, chain.rules, ctx, State());
      assert chain.rules[0..] == chain.rules;
      for i := 0 to |chain.rules|
        invariant old(visited) <= visited
        invariant EvalRules(chains, name, chain.policy, chain.rules[i..], ctx, State()) == goal
      {
        var rule := chain.rules[i];
        ghost var before := State();
        ghost var after := Recorded(name, rule, ctx, before);
        RuleStep(chains, name, chain.policy, chain.rules, i, ctx, before);
        if rule.matches(ctx) {
          Record(TraceStep(name, rule.name, true, Some(rule.target), if rule.target.Jump? then rule.chain else ""));
          match rule.target {
            case Jump =>
              assert State() == after;
              RoomMonotone(chains.Keys, old(visited), visited);
              out := RunChain(chains, rule.chain, ctx);
              match out {
                case ChainNotFound(_) => return;
                case Decided(d) =>
                  if IsTerminal(d.target) {
                    return Decided(d.(reason := OrElse(d.reason, rule.reason)));
                  }
              }
            case Return => return Decided(PolicyDecision(name, chain.policy));
            case Log =>
            case Mark => if rule.mark != "" { marks := marks + [rule.mark]; }
            case _ => return Decided(DecisionFromRule(name, rule));
          }
        } else {
          Record(TraceStep(name, rule.name, false, None, ""));
        }
      }
      return Decided(PolicyDecision(name, chain.policy));
    }
  }

  // One turn of the rule loop, case by case.
  lemma RuleStep(chains: ChainMap, name: string, policy: Policy, rules: seq<Rule>, i: nat,
                 ctx: RequestContext, st: EvalState)
    requires i < |rules|
    ensures var rule := rules[i];
            var st' := Recorded(name, rule, ctx, st);
            var here := EvalRules(chains, name, policy, rules[i..], ctx, st);
            if !rule.matches(ctx) || rule.target.Log? || rule.target.Mark? then
              here == EvalRules(chains, name, policy, rules[i + 1..], ctx, st')
            else if rule.target.Return? then here == (Decided(PolicyDecision(name, policy)), st')
            else if rule.target.Jump? then
              var r := EvalChain(chains, rule.chain, ctx, st');
              here == if r.0.Decided? && !IsTerminal(r.0.decision.target)
                      then EvalRules(chains, name, policy, rules[i + 1..], ctx, r.1)
                      else (Outward(r.0, rule.reason), r.1)
            else here == (Decided(DecisionFromRule(name, rule)), st')
  {
    assert rules[i..][0] == rules[i] && rules[i..][1..] == rules[i + 1..];
  }

  // EvaluateWithEntry: a fresh set of accumulators, handed out at the end.
  method EvaluateWithEntry(chains: ChainMap, entry: string, ctx: RequestContext)
    returns (out: Outcome, trace: seq<TraceStep>, marks: seq<string>)
    requires DistinctUpToCase(chains)
    ensures var (o, st) := Evaluate(chains, entry, ctx);
            out == o && trace == st.trace && marks == st.marks
  {
    var run := new Evaluation();
    out := run.RunChain(chains, if entry == "" then "INPUT" else entry, ctx);
    trace, marks := run.trace, run.marks;
  }
}
