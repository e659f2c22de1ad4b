// Cycle detection over JUMP targets (internal/config/validate.go) and what a
// clean report means for the rule engine.
module JumpGraph {
  import opened Prelude
  import opened RuleChains

  // ------------------------------------------------------------ the graph

  // Chains keyed by upper-case name, as detectCycles normalises them.
  ghost function Normalised(chains: ChainMap): ChainMap
    requires DistinctUpToCase(chains)
  {
    map u | u in UpperNames(chains.Keys) :: chains[KeyOf(chains, u)]
  }

  ghost function KeyOf(chains: ChainMap, u: string): (k: string)
    requires u in UpperNames(chains.Keys)
    ensures k in chains && Upper(k) == u
  {
    var k :| k in chains && Upper(k) == u;
    k
  }

  predicate IsJump(r: Rule) {
    r.target.Jump? && r.chain != ""
  }

  ghost predicate RuleEdge(rules: seq<Rule>, v: string) {
    exists i :: 0 <= i < |rules| && IsJump(rules[i]) && Upper(rules[i].chain) == v
  }

  ghost predicate Edge(g: ChainMap, u: string, v: string) {
    u in g && RuleEdge(g[u].rules, v)
  }

  // A walk along JUMPs, given by its nodes.
  ghost predicate IsWalk(g: ChainMap, w: seq<string>) {
    && |w| > 0
    && forall i :: 0 <= i < |w| - 1 ==> Edge(g, w[i], w[i + 1])
  }

  ghost predicate IsCycle(g: ChainMap, w: seq<string>) {
    IsWalk(g, w) && |w| > 1 && w[0] == w[|w| - 1]
  }

  ghost predicate HasCycle(g: ChainMap) {
    exists w :: IsCycle(g, w)
  }

  // ------------------------------------------------------------ detection

  datatype Color = Gray | Black

  // "cycle detected: path[0] -> ... -> name"
  datatype Problem = Problem(path: seq<string>, name: string)

  ghost function Uppers(path: seq<string>): seq<string> {
    seq(|path|, i requires 0 <= i < |path| => Upper(path[i]))
  }

  // Finished nodes in the order they were finished: every JUMP out of one
  // leads to an earlier one.
  ghost predicate FinishOrder(g: ChainMap, order: seq<string>) {
    forall i, v :: 0 <= i < |order| && Edge(g, order[i], v) ==> v in order[..i]
  }

  lemma FinishNext(g: ChainMap, order: seq<string>, u: string)
    requires FinishOrder(g, order) && forall v :: Edge(g, u, v) ==> v in order
    ensures FinishOrder(g, order + [u])
  {
    forall i, v | 0 <= i < |order + [u]| && Edge(g, (order + [u])[i], v)
      ensures v in (order + [u])[..i]
    {
      assert (order + [u])[..i] == order[..i];
    }
  }

  ghost predicate KeysAreUpper(g: ChainMap) {
    forall u :: u in g ==> Upper(u) == u
  }

  lemma UpperTwice(s: string)
    ensures Upper(Upper(s)) == Upper(s)
  {
  }

  lemma PathClosesCycle(g: ChainMap, w: seq<string>, u: string)
    requires w != [] ==> IsWalk(g, w) && Edge(g, w[|w| - 1], u)
    requires u in w
    ensures exists i :: 0 <= i < |w| && IsCycle(g, w[i..] + [u])
  {
    var i :| 0 <= i < |w| && w[i] == u;
    assert IsCycle(g, w[i..] + [u]);
  }

  // The reported path, cut at its first repeated chain, is a real cycle.
  ghost predicate Witnesses(g: ChainMap, p: Problem) {
    exists i :: 0 <= i < |p.path| && IsCycle(g, Uppers(p.path)[i..] + [Upper(p.name)])
  }

  class CycleDetector {
    const g: ChainMap
    var color: map<string, Color>
    var problems: seq<Problem>
    ghost var order: seq<string>

    constructor (chains: ChainMap)
      requires DistinctUpToCase(chains)
      ensures g == Normalised(chains) && KeysAreUpper(g)
      ensures color == map[] && problems == [] && order == []
    {
      var normalised: ChainMap := map[];
      var todo := chains.Keys;
      while todo != {}
        invariant todo <= chains.Keys
        invariant forall k :: k in chains && k !in todo ==> Upper(k) in normalised && normalised[Upper(k)] == chains[k]
        invariant forall u :: u in normalised ==> exists k :: k in chains && Upper(k) == u
        decreases todo
      {
        var k :| k in todo;
        normalised := normalised[Upper(k) := chains[k]];
        todo := todo - {k};
      }
      g := normalised;
      color, problems, order := map[], [], [];
      assert normalised == Normalised(chains);
      forall k: string { UpperTwice(k); }
    }

    ghost function Universe(): set<string> {
      g.Keys + set u, i | u in g && 0 <= i < |g[u].rules| :: Upper(g[u].rules[i].chain)
    }

    ghost function White(): set<string>
      reads this
    {
      Universe() - color.Keys
    }

    // While nothing has been reported the gray nodes are exactly the current
    // path and the black nodes carry a finish order.
    ghost predicate Clean(path: seq<string>)
      reads this
    {
      && (forall u :: u in color && color[u].Gray? <==> u in Uppers(path))
      && (forall u :: u in color && color[u].Black? <==> u in order)
      && (path != [] ==> IsWalk(g, Uppers(path)))
      && FinishOrder(g, order)
    }

    ghost predicate Reaches(path: seq<string>, name: string) {
      path != [] ==> Edge(g, Upper(path[|path| - 1]), Upper(name))
    }

    method Visit(name: string, path: seq<string>) returns (found: bool)
      requires Upper(name) in Universe()
      requires problems == [] ==> Clean(path) && Reaches(path, name)
      modifies this
      ensures old(color.Keys) <= color.Keys
      ensures |problems| == |old(problems)| + (if found then 1 else 0) && old(problems) <= problems
      ensures !found && problems == [] ==> Clean(path) && Upper(name) in order && old(order) <= order
      ensures found && old(problems) == [] ==> Witnesses(g, problems[0])
      decreases White(), 1
    {
      var upper := Upper(name);
      if upper in color && color[upper].Gray? {
        Report(name, path);
        return true;
      }
      if upper in color && color[upper].Black? { return false; }
      assert problems == [] ==> upper !in Uppers(path);
      color := color[upper := Gray];
      assert problems == [] ==> Clean(path + [name]) by {
        assert Uppers(path + [name]) == Uppers(path) + [upper];
      }
      if upper in g {
        assert upper in old(White()) && upper !in White();
        found := VisitJumps(name, path);
        if found { return; }
      }
      Finish(name, path);
      return false;
    }

    // A gray node closes a cycle.
    method Report(name: string, path: seq<string>)
      requires Upper(name) in color && color[Upper(name)].Gray?
      requires problems == [] ==> Clean(path) && Reaches(path, name)
      modifies this`problems
      ensures problems == old(problems) + [Problem(path, name)]
      ensures old(problems) == [] ==> Witnesses(g, problems[0])
    {
      if problems == [] { PathClosesCycle(g, Uppers(path), Upper(name)); }
      problems := problems + [Problem(path, name)];
    }

    // All successors of a gray node are black: it becomes black, too.
    method Finish(name: string, path: seq<string>)
      requires Upper(name) in color
      requires problems == [] ==>
        && Clean(path + [name]) && Upper(name) !in Uppers(path)
        && forall v :: Edge(g, Upper(name), v) ==> v in order
      modifies this`color, this`order
      ensures color.Keys == old(color.Keys)
      ensures problems == [] ==> Clean(path) && Upper(name) in order && old(order) <= order
    {
      assert Uppers(path + [name]) == Uppers(path) + [Upper(name)];
      if problems == [] { FinishNext(g, order, Upper(name)); }
      color := color[Upper(name) := Black];
      order := order + [Upper(name)];
      if problems == [] { WalkBefore(Uppers(path), Upper(name)); }
    }

    lemma WalkBefore(w: seq<string>, u: string)
      requires IsWalk(g, w + [u])
      ensures w != [] ==> IsWalk(g, w)
    {
      forall i | 0 <= i < |w| - 1 ensures Edge(g, w[i], w[i + 1]) {
        assert Edge(g, (w + [u])[i], (w + [u])[i + 1]);
      }
    }

    // The rule loop: stops at the first reported cycle.
    method VisitJumps(name: string, path: seq<string>) returns (found: bool)
      requires Upper(name) in g && Upper(name) in color
      requires problems == [] ==> Clean(path + [name])
      modifies this
      ensures old(color.Keys) <= color.Keys
      ensures |problems| == |old(problems)| + (if found then 1 else 0) && old(problems) <= problems
      ensures !found && problems == [] ==> Clean(path + [name]) && old(order) <= order && forall v :: Edge(g, Upper(name), v) ==> v in order
      ensures found && old(problems) == [] ==> Witnesses(g, problems[0])
      decreases White(), 2
    {
      var rules := g[Upper(name)].rules;
      for i := 0 to |rules|
        invariant old(color.Keys) <= color.Keys
        invariant problems == old(problems)
        invariant problems == [] ==> Clean(path + [name]) && old(order) <= order
        invariant problems == [] ==> forall j :: 0 <= j < i && IsJump(rules[j]) ==> Upper(rules[j].chain) in order
      {
        if IsJump(rules[i]) {
          assert RuleEdge(rules, Upper(rules[i].chain));
          assert (path + [name])[|path + [name]| - 1] == name;
          found := Visit(rules[i].chain, path + [name]);
          if found { return; }
        }
      }
      return false;
    }

    // detectCycles: visit every chain, in whatever order the map yields them.
    method DetectCycles()
      requires KeysAreUpper(g) && color == map[] && problems == [] && order == []
      modifies this
      ensures problems != [] <==> HasCycle(g)
      ensures problems != [] ==> Witnesses(g, problems[0])
    {
      var todo := g.Keys;
      while todo != {}
        invariant todo <= g.Keys
        invariant problems == [] ==> Clean([]) && forall u :: u in g && u !in todo ==> u in order
        invariant problems != [] ==> Witnesses(g, problems[0])
        decreases todo
      {
        var n :| n in todo;
        var _ := Visit(n, []);
        todo := todo - {n};
      }
      if problems == [] { FinishedMeansAcyclic(g, order); }
    }
  }

  lemma {:induction false} WalksDescend(g: ChainMap, order: seq<string>, i: nat, w: seq<string>)
    requires FinishOrder(g, order) && i < |order| && IsWalk(g, w) && |w| > 1 && w[0] == order[i]
    ensures w[|w| - 1] in order[..i]
    decreases |w|
  {
    assert Edge(g, order[i], w[1]);
    if |w| > 2 {
      var j :| 0 <= j < i && order[j] == w[1];
      WalksDescend(g, order, j, w[1..]);
    }
  }

  lemma FinishedMeansAcyclic(g: ChainMap, order: seq<string>)
    requires FinishOrder(g, order) && forall u :: u in g ==> u in order
    ensures !HasCycle(g)
  {
    forall w | IsCycle(g, w) ensures false {
      assert Edge(g, w[0], w[1]);
      var i := FirstIndex(order, w[0]);
      WalksDescend(g, order, i, w);
    }
  }

  lemma {:induction false} FirstIndex(s: seq<string>, x: string) returns (i: nat)
    requires x in s
    ensures i < |s| && s[i] == x && x !in s[..i]
  {
    if x in s[..|s| - 1] {
      i := FirstIndex(s[..|s| - 1], x);
      assert s[..i] == s[..|s| - 1][..i];
    } else {
      i := |s| - 1;
    }
  }

  // ----------------------------------------- what a clean report guarantees

  // The JUMP checks of checkRiskControl: a target is named and exists.
  ghost predicate JumpsResolve(chains: ChainMap) {
    forall k, i :: k in chains && 0 <= i < |chains[k].rules| && chains[k].rules[i].target.Jump? ==>
      chains[k].rules[i].chain != "" && FindKey(chains.Keys, chains[k].rules[i].chain).Some?
  }

  ghost predicate Leads(g: ChainMap, u: string, v: string) {
    exists w :: IsWalk(g, w) && |w| > 1 && w[0] == u && w[|w| - 1] == v
  }

  lemma LeadsFurther(g: ChainMap, x: string, u: string, v: string)
    requires x == u || Leads(g, x, u)
    requires Edge(g, u, v)
    ensures Leads(g, x, v)
  {
    var w := [u];
    if x != u { w :| IsWalk(g, w) && |w| > 1 && w[0] == x && w[|w| - 1] == u; }
    assert IsWalk(g, w + [v]);
  }

  // Every chain entered so far leads on to the one about to be entered.
  ghost predicate AllLeadTo(g: ChainMap, visited: multiset<string>, u: string) {
    forall x :: x in visited ==> visited[x] == 1 && Leads(g, x, u)
  }

  ghost predicate OncePerChain(r: (Outcome, EvalState)) {
    r.0.Decided? && IsTerminal(r.0.decision.target) && forall x :: x in r.1.visited ==> r.1.visited[x] == 1
  }

  ghost predicate Sound(chains: ChainMap) {
    Compiled(chains) && DistinctUpToCase(chains) && JumpsResolve(chains) && !HasCycle(Normalised(chains))
  }

  lemma {:induction false} ChainEntersOnce(chains: ChainMap, name: string, ctx: RequestContext, st: EvalState)
    requires Sound(chains) && FindKey(chains.Keys, name).Some?
    requires AllLeadTo(Normalised(chains), st.visited, Upper(name))
    ensures OncePerChain(EvalChain(chains, name, ctx, st))
    decreases Room(chains.Keys, st.visited), 0
  {
    var g, u, k := Normalised(chains), Upper(name), FindKey(chains.Keys, name).value;
    if u in st.visited {
      var w :| IsWalk(g, w) && |w| > 1 && w[0] == u && w[|w| - 1] == u;
      assert IsCycle(g, w);
    }
    RoomShrinks(chains.Keys, st.visited, u);
    assert chains[k].rules[0..] == chains[k].rules;
    RulesEnterOnce(chains, name, k, 0, ctx, st.(visited := st.visited + multiset{u}));
  }

  lemma {:induction false} RulesEnterOnce(chains: ChainMap, name: string, k: string, i: nat, ctx: RequestContext, st: EvalState)
    requires Sound(chains) && k in chains && Upper(k) == Upper(name) && i <= |chains[k].rules|
    requires forall x :: x in st.visited ==> st.visited[x] == 1 && (x == Upper(name) || Leads(Normalised(chains), x, Upper(name)))
    ensures OncePerChain(EvalRules(chains, name, chains[k].policy, chains[k].rules[i..], ctx, st))
    decreases Room(chains.Keys, st.visited), 1 + |chains[k].rules| - i
  {
    var g, rules := Normalised(chains), chains[k].rules;
    if i < |rules| {
      var rule, st' := rules[i], Recorded(name, rules[i], ctx, st);
      RuleStep(chains, name, chains[k].policy, rules, i, ctx, st);
      if !rule.matches(ctx) || rule.target.Log? || rule.target.Mark? {
        RulesEnterOnce(chains, name, k, i + 1, ctx, st');
      } else if rule.target.Jump? {
        assert Edge(g, Upper(name), Upper(rule.chain)) by {
          assert KeyOf(chains, Upper(name)) == k;
          assert RuleEdge(rules, Upper(rule.chain));
        }
        forall x | x in st.visited ensures Leads(g, x, Upper(rule.chain)) {
          LeadsFurther(g, x, Upper(name), Upper(rule.chain));
        }
        ChainEntersOnce(chains, rule.chain, ctx, st');
      }
    }
  }

  // With an INPUT chain, existing JUMP targets and no reported cycle, an
  // evaluation reaches a verdict without error and enters each chain at
  // most once, so the visit guard never fires.
  lemma {:induction false} ValidConfigNeverTripsGuard(chains: ChainMap, ctx: RequestContext)
    requires Sound(chains) && FindKey(chains.Keys, "INPUT").Some?
    ensures var (out, st) := Evaluate(chains, "INPUT", ctx);
            && out.Decided? && IsTerminal(out.decision.target)
            && forall u :: st.visited[u] <= 1
  {
    ChainEntersOnce(chains, "INPUT", ctx, START);
  }
}
