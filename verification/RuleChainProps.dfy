// What the rule engine guarantees: an iterative tail-jump machine computes
// the same verdict, trace and marks; LOG and MARK rules never influence the
// decision; the visit guard bounds every evaluation; and on acyclic chains
// with existing JUMP targets the guard is never needed.
module RuleChainProps {
  import opened Prelude
  import opened RuleChains

  // ------------------------------------------------- the tail-jump machine

  // One rule looked at, under the name its chain was entered by.
  datatype Visit = Visit(chain: string, rule: Rule)

  // `outer` holds the reasons of the enclosing JUMP rules, innermost first;
  // the machine never comes back to an enclosing chain.
  datatype Machine =
    | Running(name: string, policy: Policy, rules: seq<Rule>, outer: seq<string>,
              path: seq<Visit>, visited: multiset<string>)
    | Halted(outcome: Outcome, path: seq<Visit>, visited: multiset<string>)

  function FirstNonEmpty(reasons: seq<string>): string {
    if reasons == [] then ""
    else if reasons[0] != "" then reasons[0]
    else FirstNonEmpty(reasons[1..])
  }

  function Report(d: Decision, outer: seq<string>): Outcome {
    Decided(d.(reason := FirstNonEmpty([d.reason] + outer)))
  }

  // The status of a deciding rule that names none.
  function UsualStatus(t: Target): int {
    if t.Accept? || t.RateLimit? then 200 else if t.TooMany? then 429 else 403
  }

  ghost function Enter(chains: ChainMap, name: string, outer: seq<string>,
                       path: seq<Visit>, visited: multiset<string>): Machine {
    match FindKey(chains.Keys, name)
    case None => Halted(ChainNotFound(name), path, visited)
    case Some(k) =>
      var visited' := visited + multiset{Upper(name)};
      if visited'[Upper(name)] > 8 then
        Halted(Report(Decision(Reject, 500, "", "chain_depth_exceeded", name, ""), outer), path, visited')
      else
        Running(name, chains[k].policy, chains[k].rules, outer, path, visited')
  }

  ghost function Step(chains: ChainMap, ctx: RequestContext, m: Machine): Machine {
    match m
    case Halted(_, _, _) => m
    case Running(name, policy, rules, outer, path, visited) =>
      var ended := Report(Decision(policy.target, policy.status, policy.limitRate, policy.reason, name, "policy"), outer);
      if rules == [] then Halted(ended, path, visited)
      else
        var rule, path' := rules[0], path + [Visit(name, rules[0])];
        if !rule.matches(ctx) || rule.target.Log? || rule.target.Mark? then
          Running(name, policy, rules[1..], outer, path', visited)
        else if rule.target.Return? then
          Halted(ended, path', visited)
        else if rule.target.Jump? then
          Enter(chains, rule.chain, [rule.reason] + outer, path', visited)
        else
          var status := if rule.status != 0 then rule.status else UsualStatus(rule.target);
          Halted(Report(Decision(rule.target, status, rule.limitRate, rule.reason, name, rule.name), outer), path', visited)
  }

  ghost function Steps(chains: ChainMap, ctx: RequestContext, m: Machine, n: nat): Machine
    decreases n
  {
    if n == 0 then m else Steps(chains, ctx, Step(chains, ctx, m), n - 1)
  }

  function TraceOf(path: seq<Visit>, ctx: RequestContext): seq<TraceStep> {
    if path == [] then []
    else
      var Visit(chain, rule) := path[0];
      var hit := rule.matches(ctx);
      [TraceStep(chain, rule.name, hit, if hit then Some(rule.target) else None, if hit && rule.target.Jump? then rule.chain else "")]
      + TraceOf(path[1..], ctx)
  }

  // The non-empty marks of the matched MARK rules, in the order looked at.
  function MarksOf(path: seq<Visit>, ctx: RequestContext): seq<string> {
    if path == [] then []
    else
      var rule := path[0].rule;
      (if rule.matches(ctx) && rule.target.Mark? && rule.mark != "" then [rule.mark] else []) + MarksOf(path[1..], ctx)
  }

  ghost function ReportOutcome(out: Outcome, outer: seq<string>): Outcome {
    match out
    case Decided(d) => Report(d, outer)
    case ChainNotFound(_) => out
  }

  // What a recursive result `r`, started in `st`, means for the machine.
  ghost predicate Mirrors(m: Machine, r: (Outcome, EvalState), st: EvalState, outer: seq<string>,
                          path: seq<Visit>, tail: seq<Visit>, ctx: RequestContext) {
    && m == Halted(ReportOutcome(r.0, outer), path + tail, r.1.visited)
    && r.1.trace == st.trace + TraceOf(tail, ctx)
    && r.1.marks == st.marks + MarksOf(tail, ctx)
    && (r.0.Decided? ==> IsTerminal(r.0.decision.target))
  }

  lemma {:induction false} ChainIsTailJump(chains: ChainMap, name: string, ctx: RequestContext, st: EvalState,
                                           outer: seq<string>, path: seq<Visit>) returns (n: nat, tail: seq<Visit>)
    requires Compiled(chains)
    ensures Mirrors(Steps(chains, ctx, Enter(chains, name, outer, path, st.visited), n),
                    EvalChain(chains, name, ctx, st), st, outer, path, tail, ctx)
    decreases Room(chains.Keys, st.visited), 0
  {
    var key := FindKey(chains.Keys, name);
    var entered := st.(visited := st.visited + multiset{Upper(name)});
    if key.None? || entered.visited[Upper(name)] > VISIT_LIMIT {
      n, tail := 0, [];
      assert path + tail == path;
    } else {
      RoomShrinks(chains.Keys, st.visited, Upper(name));
      n, tail := RulesAreTailJump(chains, name, chains[key.value].policy, chains[key.value].rules, ctx, entered, outer, path);
    }
  }

  lemma {:induction false} RulesAreTailJump(chains: ChainMap, name: string, policy: Policy, rules: seq<Rule>,
                                            ctx: RequestContext, st: EvalState, outer: seq<string>, path: seq<Visit>)
    returns (n: nat, tail: seq<Visit>)
    requires Compiled(chains) && IsTerminal(policy.target)
    ensures Mirrors(Steps(chains, ctx, Running(name, policy, rules, outer, path, st.visited), n),
                    EvalRules(chains, name, policy, rules, ctx, st), st, outer, path, tail, ctx)
    decreases Room(chains.Keys, st.visited), 1 + |rules|
  {
    var m := Running(name, policy, rules, outer, path, st.visited);
    if rules == [] {
      n, tail := 1, [];
      assert Steps(chains, ctx, m, 1) == Steps(chains, ctx, Step(chains, ctx, m), 0);
      assert path + tail == path;
    } else {
      var rule := rules[0];
      var visit := Visit(name, rule);
      var st' := Recorded(name, rule, ctx, st);
      assert rules[0..] == rules;
      RuleStep(chains, name, policy, rules, 0, ctx, st);
      var result := EvalRules(chains, name, policy, rules, ctx, st);
      var next := Step(chains, ctx, m);
      var rest: seq<Visit>;
      if !rule.matches(ctx) || rule.target.Log? || rule.target.Mark? {
        n, rest := RulesAreTailJump(chains, name, policy, rules[1..], ctx, st', outer, path + [visit]);
        assert Mirrors(Steps(chains, ctx, next, n), result, st', outer, path + [visit], rest, ctx);
      } else if rule.target.Jump? {
        n, rest := ChainIsTailJump(chains, rule.chain, ctx, st', [rule.reason] + outer, path + [visit]);
        OutwardReport(EvalChain(chains, rule.chain, ctx, st').0, rule.reason, outer);
        assert Mirrors(Steps(chains, ctx, next, n), result, st', outer, path + [visit], rest, ctx);
      } else {
        n, rest := 0, [];
        assert (path + [visit]) + rest == path + [visit];
        assert Mirrors(Steps(chains, ctx, next, n), result, st', outer, path + [visit], rest, ctx);
      }
      n, tail := n + 1, [visit] + rest;
      MirrorsEarlier(Steps(chains, ctx, m, n), result, st, st', outer, path, visit, rest, ctx);
    }
  }

  lemma MirrorsEarlier(m: Machine, r: (Outcome, EvalState), st: EvalState, st': EvalState, outer: seq<string>,
                       path: seq<Visit>, visit: Visit, rest: seq<Visit>, ctx: RequestContext)
    requires Mirrors(m, r, st', outer, path + [visit], rest, ctx)
    requires st' == Recorded(visit.chain, visit.rule, ctx, st)
    ensures Mirrors(m, r, st, outer, path, [visit] + rest, ctx)
  {
    assert (path + [visit]) + rest == path + ([visit] + rest);
    assert ([visit] + rest)[1..] == rest;
  }

  lemma OutwardReport(out: Outcome, reason: string, outer: seq<string>)
    ensures ReportOutcome(Outward(out, reason), outer) == ReportOutcome(out, [reason] + outer)
  {
    if out.Decided? {
      var r := out.decision.reason;
      assert ([r] + ([reason] + outer))[1..] == [reason] + outer;
      assert ([reason] + outer)[1..] == outer;
      assert ([OrElse(r, reason)] + outer)[1..] == outer;
    }
  }

  // The recursive evaluator and the iterative machine agree on verdict,
  // reported reason, trace, marks and error. The reason is the first
  // non-empty one from the deciding rule or policy outward.
  lemma {:induction false} EvaluatorIsTailJumpMachine(chains: ChainMap, entry: string, ctx: RequestContext)
    returns (n: nat, path: seq<Visit>)
    requires Compiled(chains)
    ensures var (out, st) := Evaluate(chains, entry, ctx);
            && Steps(chains, ctx, Enter(chains, OrElse(entry, "INPUT"), [], [], multiset{}), n)
               == Halted(out, path, st.visited)
            && st.trace == TraceOf(path, ctx)
            && st.marks == MarksOf(path, ctx)
            && (out.Decided? ==> IsTerminal(out.decision.target))
  {
    n, path := ChainIsTailJump(chains, OrElse(entry, "INPUT"), ctx, START, [], []);
    var out := Evaluate(chains, entry, ctx).0;
    if out.Decided? {
      assert FirstNonEmpty([out.decision.reason] + []) == out.decision.reason;
    }
  }

  // ------------------------------------------------ where decisions come from

  ghost predicate FromGuard(d: Decision) {
    d.target.Reject? && d.status == 500 && d.limitRate == "" && d.reason == "chain_depth_exceeded" && d.ruleName == ""
  }

  // The policy of the chain stored under key k.
  ghost predicate FromPolicy(chains: ChainMap, k: string, d: Decision) {
    && k in chains && Upper(k) == Upper(d.chain) && d.ruleName == "policy"
    && d.target == chains[k].policy.target && d.status == chains[k].policy.status
    && d.limitRate == chains[k].policy.limitRate
  }

  // Rule number i of the chain stored under key k.
  ghost predicate FromRule(chains: ChainMap, ctx: RequestContext, k: string, i: nat, d: Decision) {
    && k in chains && Upper(k) == Upper(d.chain) && i < |chains[k].rules|
    && var rule := chains[k].rules[i];
       && rule.matches(ctx) && d.ruleName == rule.name && d.limitRate == rule.limitRate && d.target == rule.target
       && (d.target.Accept? || d.target.Reject? || d.target.RateLimit? || d.target.TooMany? || d.target.RequirePow?)
       && d.status == if rule.status != 0 then rule.status
                      else if d.target.Accept? || d.target.RateLimit? then 200
                      else if d.target.TooMany? then 429 else 403
  }

  ghost predicate Sourced(chains: ChainMap, ctx: RequestContext, out: Outcome) {
    out.Decided? ==>
      || FromGuard(out.decision)
      || (exists k :: FromPolicy(chains, k, out.decision))
      || (exists k, i :: FromRule(chains, ctx, k, i, out.decision))
  }

  lemma OutwardIsSourced(chains: ChainMap, ctx: RequestContext, out: Outcome, reason: string)
    requires Sourced(chains, ctx, out)
    ensures Sourced(chains, ctx, Outward(out, reason))
  {
    if out.Decided? {
      var d := out.decision;
      var d' := Outward(out, reason).decision;
      if k :| FromPolicy(chains, k, d) {
        assert FromPolicy(chains, k, d');
      } else if k, i :| FromRule(chains, ctx, k, i, d) {
        assert FromRule(chains, ctx, k, i, d');
      }
    }
  }

  lemma {:induction false} ChainIsSourced(chains: ChainMap, name: string, ctx: RequestContext, st: EvalState)
    ensures Sourced(chains, ctx, EvalChain(chains, name, ctx, st).0)
    decreases Room(chains.Keys, st.visited), 0
  {
    var key := FindKey(chains.Keys, name);
    var entered := st.(visited := st.visited + multiset{Upper(name)});
    if key.Some? && entered.visited[Upper(name)] <= VISIT_LIMIT {
      RoomShrinks(chains.Keys, st.visited, Upper(name));
      RulesAreSourced(chains, key.value, name, 0, ctx, entered);
    }
  }

  lemma {:induction false} RulesAreSourced(chains: ChainMap, k: string, name: string, i: nat, ctx: RequestContext, st: EvalState)
    requires k in chains && Upper(k) == Upper(name) && i <= |chains[k].rules|
    ensures Sourced(chains, ctx, EvalRules(chains, name, chains[k].policy, chains[k].rules[i..], ctx, st).0)
    decreases Room(chains.Keys, st.visited), 1 + |chains[k].rules| - i
  {
    var policy, rules := chains[k].policy, chains[k].rules;
    var out := EvalRules(chains, name, policy, rules[i..], ctx, st).0;
    if i < |rules| {
      var rule, st' := rules[i], Recorded(name, rules[i], ctx, st);
      RuleStep(chains, name, policy, rules, i, ctx, st);
      if !rule.matches(ctx) || rule.target.Log? || rule.target.Mark? {
        RulesAreSourced(chains, k, name, i + 1, ctx, st');
      } else if rule.target.Return? {
        assert FromPolicy(chains, k, out.decision);
      } else if rule.target.Jump? {
        ChainIsSourced(chains, rule.chain, ctx, st');
        var (inner, after) := EvalChain(chains, rule.chain, ctx, st');
        OutwardIsSourced(chains, ctx, inner, rule.reason);
        if inner.Decided? && !IsTerminal(inner.decision.target) {
          RoomMonotone(chains.Keys, st.visited, after.visited);
          RulesAreSourced(chains, k, name, i + 1, ctx, after);
        }
      } else {
        assert FromRule(chains, ctx, k, i, out.decision);
      }
    } else {
      assert FromPolicy(chains, k, out.decision);
    }
  }

  // Every decision is the visit guard's, a chain's own policy, or that of a
  // matching rule with a deciding target, field by field. (The reason, which
  // enclosing JUMPs may supply, is settled by EvaluatorIsTailJumpMachine.)
  lemma {:induction false} DecisionsComeFromTheChains(chains: ChainMap, entry: string, ctx: RequestContext)
    ensures Sourced(chains, ctx, Evaluate(chains, entry, ctx).0)
  {
    ChainIsSourced(chains, OrElse(entry, "INPUT"), ctx, START);
  }

  // --------------------------------------------------------- the visit guard

  ghost predicate WithinAllowance(chains: ChainMap, visited: multiset<string>) {
    visited <= Allowance(chains.Keys)
  }

  // Entries stay within the allowance; only the entry that trips the guard
  // goes one beyond, and that one decides the evaluation.
  ghost predicate Guarded(chains: ChainMap, r: (Outcome, EvalState)) {
    WithinAllowance(chains, r.1.visited)
    || (r.0.Decided? && IsTerminal(r.0.decision.target)
        && |r.1.visited| <= |Allowance(chains.Keys)| + 1)
  }

  lemma {:induction false} ChainIsGuarded(chains: ChainMap, name: string, ctx: RequestContext, st: EvalState)
    requires WithinAllowance(chains, st.visited)
    ensures Guarded(chains, EvalChain(chains, name, ctx, st))
    decreases Room(chains.Keys, st.visited), 0
  {
    var key, u := FindKey(chains.Keys, name), Upper(name);
    if key.Some? {
      var entered := st.(visited := st.visited + multiset{u});
      if entered.visited[u] > VISIT_LIMIT {
        SubsetSize(st.visited, Allowance(chains.Keys));
      } else {
        RoomShrinks(chains.Keys, st.visited, u);
        RulesAreGuarded(chains, name, chains[key.value].policy, chains[key.value].rules, ctx, entered);
      }
    }
  }

  lemma SubsetSize(a: multiset<string>, b: multiset<string>)
    requires a <= b
    ensures |a| <= |b|
  {
    assert b == a + (b - a);
  }

  lemma {:induction false} RulesAreGuarded(chains: ChainMap, name: string, policy: Policy, rules: seq<Rule>,
                                           ctx: RequestContext, st: EvalState)
    requires WithinAllowance(chains, st.visited)
    ensures Guarded(chains, EvalRules(chains, name, policy, rules, ctx, st))
    decreases Room(chains.Keys, st.visited), 1 + |rules|
  {
    if rules != [] {
      var rule, st' := rules[0], Recorded(name, rules[0], ctx, st);
      assert rules[0..] == rules;
      RuleStep(chains, name, policy, rules, 0, ctx, st);
      if !rule.matches(ctx) || rule.target.Log? || rule.target.Mark? {
        RulesAreGuarded(chains, name, policy, rules[1..], ctx, st');
      } else if rule.target.Jump? {
        ChainIsGuarded(chains, rule.chain, ctx, st');
        var (out, inner) := EvalChain(chains, rule.chain, ctx, st');
        if out.Decided? && !IsTerminal(out.decision.target) {
          RoomMonotone(chains.Keys, st.visited, inner.visited);
          RulesAreGuarded(chains, name, policy, rules[1..], ctx, inner);
        }
      }
    }
  }

  // On any chain map, cyclic or not, an evaluation enters at most
  // 8 * (number of chains) + 1 chains.
  lemma {:induction false} EntriesAreBounded(chains: ChainMap, entry: string, ctx: RequestContext)
    ensures |Evaluate(chains, entry, ctx).1.visited| <= 8 * |chains| + 1
  {
    ChainIsGuarded(chains, OrElse(entry, "INPUT"), ctx, START);
    UpperNamesSize(chains.Keys);
    var visited := Evaluate(chains, entry, ctx).1.visited;
    if WithinAllowance(chains, visited) { SubsetSize(visited, Allowance(chains.Keys)); }
  }

  lemma {:induction false} UpperNamesSize(keys: set<string>)
    ensures |UpperNames(keys)| <= |keys|
  {
    if keys != {} {
      var k :| k in keys;
      UpperNamesSize(keys - {k});
      assert UpperNames(keys) == UpperNames(keys - {k}) + {Upper(k)};
    }
  }

  // ------------------------------------------------------ LOG/MARK erasure

  function EraseRules(rules: seq<Rule>): seq<Rule> {
    if rules == [] then []
    else if rules[0].target.Log? || rules[0].target.Mark? then EraseRules(rules[1..])
    else [rules[0]] + EraseRules(rules[1..])
  }

  function Erase(chains: ChainMap): ChainMap {
    map k | k in chains :: Chain(EraseRules(chains[k].rules), chains[k].policy)
  }

  lemma {:induction false} ChainErasure(chains: ChainMap, name: string, ctx: RequestContext, st: EvalState, es: EvalState)
    requires st.visited == es.visited
    ensures var r, e := EvalChain(chains, name, ctx, st), EvalChain(Erase(chains), name, ctx, es);
            r.0 == e.0 && r.1.visited == e.1.visited
    decreases Room(chains.Keys, st.visited), 0
  {
    assert Erase(chains).Keys == chains.Keys;
    var key, u := FindKey(chains.Keys, name), Upper(name);
    var entered := st.(visited := st.visited + multiset{u});
    if key.Some? && entered.visited[u] <= VISIT_LIMIT {
      RoomShrinks(chains.Keys, st.visited, u);
      RulesErasure(chains, name, chains[key.value].policy, chains[key.value].rules, ctx,
                   entered, es.(visited := es.visited + multiset{u}));
    }
  }

  lemma {:induction false} RulesErasure(chains: ChainMap, name: string, policy: Policy, rules: seq<Rule>,
                                        ctx: RequestContext, st: EvalState, es: EvalState)
    requires st.visited == es.visited
    ensures var r := EvalRules(chains, name, policy, rules, ctx, st);
            var e := EvalRules(Erase(chains), name, policy, EraseRules(rules), ctx, es);
            r.0 == e.0 && r.1.visited == e.1.visited
    decreases Room(chains.Keys, st.visited), 1 + |rules|
  {
    if rules != [] {
      var rule, st' := rules[0], Recorded(name, rules[0], ctx, st);
      var erased := EraseRules(rules);
      assert rules[0..] == rules;
      RuleStep(chains, name, policy, rules, 0, ctx, st);
      if rule.target.Log? || rule.target.Mark? {
        RulesErasure(chains, name, policy, rules[1..], ctx, st', es);
      } else {
        var es' := Recorded(name, rule, ctx, es);
        assert erased[0..] == erased && erased[1..] == EraseRules(rules[1..]);
        RuleStep(Erase(chains), name, policy, erased, 0, ctx, es);
        if !rule.matches(ctx) {
          RulesErasure(chains, name, policy, rules[1..], ctx, st', es');
        } else if rule.target.Jump? {
          ChainErasure(chains, rule.chain, ctx, st', es');
          var r, e := EvalChain(chains, rule.chain, ctx, st'), EvalChain(Erase(chains), rule.chain, ctx, es');
          if r.0.Decided? && !IsTerminal(r.0.decision.target) {
            RoomMonotone(chains.Keys, st.visited, r.1.visited);
            RulesErasure(chains, name, policy, rules[1..], ctx, r.1, e.1);
          }
        }
      }
    }
  }

  // Deleting every LOG and MARK rule leaves the whole decision unchanged,
  // for every request, with or without terminal policies.
  lemma {:induction false} LogAndMarkNeverDecide(chains: ChainMap, entry: string, ctx: RequestContext)
    ensures Evaluate(Erase(chains), entry, ctx).0 == Evaluate(chains, entry, ctx).0
  {
    ChainErasure(chains, OrElse(entry, "INPUT"), ctx, START, START);
  }
}
