/** Which machines a chain runs on (frontend/src/api.ts): its head, its spine along the first
    "any, forward" rules, and its members, everything reachable along forward rules. */
module Chains {
  import opened Wrappers

  /** `any` when the rule matches every destination; `to` when its action is to forward. */
  datatype Rule = Rule(any: bool, to: Option<string>)

  datatype Step = Step(chain: string, node: string, rules: seq<Rule>)

  datatype Ingress = Ingress(id: string, chain: string, node: string)

  datatype App = App(steps: seq<Step>, ingresses: seq<Ingress>)

  // ----- the head

  /** The language's order on strings, code unit by code unit. */
  predicate Less(a: string, b: string) {
    if b == "" then false
    else if a == "" then true
    else a[0] < b[0] || (a[0] == b[0] && Less(a[1..], b[1..]))
  }

  lemma {:induction false} LessIsTotal(a: string, b: string)
    ensures a == b <==> !Less(a, b) && !Less(b, a)
    ensures !(Less(a, b) && Less(b, a))
  {
    if a != "" && b != "" {
      LessIsTotal(a[1..], b[1..]);
      assert a == [a[0]] + a[1..] && b == [b[0]] + b[1..];
    }
  }

  lemma {:induction false} LessIsTransitive(a: string, b: string, c: string)
    ensures Less(a, b) && Less(b, c) ==> Less(a, c)
    ensures !Less(b, a) && !Less(c, b) ==> !Less(c, a)
  {
    if a != "" && b != "" && c != "" {
      LessIsTransitive(a[1..], b[1..], c[1..]);
    }
  }

  /** The first ingress of the chain among those with the least id. */
  ghost predicate IsHead(ingresses: seq<Ingress>, chain: string, i: nat) {
    && i < |ingresses| && ingresses[i].chain == chain
    && (forall j | 0 <= j < |ingresses| && ingresses[j].chain == chain :: !Less(ingresses[j].id, ingresses[i].id))
    && (forall j | 0 <= j < i && ingresses[j].chain == chain :: Less(ingresses[i].id, ingresses[j].id))
  }

  ghost predicate IsChainHead(app: App, chain: string, head: Option<string>) {
    match head
    case None => forall i | i in app.ingresses :: i.chain != chain
    case Some(node) => exists i: nat :: IsHead(app.ingresses, chain, i) && app.ingresses[i].node == node
  }

  method ChainHead(app: App, chain: string) returns (head: Option<string>)
    ensures IsChainHead(app, chain, head)
  {
    var min: Option<Ingress> := None;
    ghost var at: nat := 0;
    for k := 0 to |app.ingresses|
      invariant min.None? ==> forall j | 0 <= j < k :: app.ingresses[j].chain != chain
      invariant min.Some? ==> at < k && IsHead(app.ingresses[..k], chain, at) && min.value == app.ingresses[at]
    {
      var i := app.ingresses[k];
      ghost var before := app.ingresses[..k];
      assert app.ingresses[..k + 1] == before + [i];
      if i.chain == chain {
        if min.None? || Less(i.id, min.value.id) {
          forall j | 0 <= j < k && app.ingresses[j].chain == chain ensures Less(i.id, app.ingresses[j].id) {
            assert before[j] == app.ingresses[j];
            BelowLeast(i.id, min.value.id, app.ingresses[j].id);
          }
          LessIsTotal(i.id, i.id);
          forall j | 0 <= j < k && app.ingresses[j].chain == chain ensures !Less(app.ingresses[j].id, i.id) {
            LessIsTotal(i.id, app.ingresses[j].id);
          }
          min := Some(i);
          at := k;
        }
      }
    }
    assert app.ingresses[..|app.ingresses|] == app.ingresses;
    head := if min.Some? then Some(min.value.node) else None;
  }

  lemma BelowLeast(a: string, b: string, c: string)
    requires Less(a, b) && !Less(c, b)
    ensures Less(a, c)
  {
    LessIsTotal(b, c);
    LessIsTransitive(a, b, c);
  }

  /** With distinct ids the head does not depend on the order in which the ingresses are listed. */
  lemma HeadIgnoresOrder(x: App, y: App, chain: string, p: Option<string>, q: Option<string>)
    requires forall i :: i in x.ingresses <==> i in y.ingresses
    requires forall i, j | i in x.ingresses && j in x.ingresses && i.id == j.id :: i == j
    requires IsChainHead(x, chain, p) && IsChainHead(y, chain, q)
    ensures p == q
  {
    HeadExists(x, chain, p);
    HeadExists(y, chain, q);
    if p.Some? {
      var i: nat :| IsHead(x.ingresses, chain, i) && x.ingresses[i].node == p.value;
      assert x.ingresses[i] in y.ingresses;
      var j: nat :| IsHead(y.ingresses, chain, j) && y.ingresses[j].node == q.value;
      assert y.ingresses[j] in x.ingresses;
      LessIsTotal(x.ingresses[i].id, y.ingresses[j].id);
    }
  }

  /** A chain has one head at most. */
  lemma HeadIsUnique(app: App, chain: string, p: Option<string>, q: Option<string>)
    requires IsChainHead(app, chain, p) && IsChainHead(app, chain, q)
    ensures p == q
  {
    HeadExists(app, chain, p);
    HeadExists(app, chain, q);
    if p.Some? {
      var i: nat :| IsHead(app.ingresses, chain, i) && app.ingresses[i].node == p.value;
      var j: nat :| IsHead(app.ingresses, chain, j) && app.ingresses[j].node == q.value;
      assert i == j;
    }
  }

  lemma HeadExists(app: App, chain: string, head: Option<string>)
    requires IsChainHead(app, chain, head)
    ensures head.Some? <==> exists i :: i in app.ingresses && i.chain == chain
  {
    if head.Some? {
      var i: nat :| IsHead(app.ingresses, chain, i);
      assert app.ingresses[i] in app.ingresses;
    }
  }

  // ----- the rules of a machine

  /** The rule table of a machine in the chain; a later step of the same machine replaces an earlier. */
  function RulesAt(steps: seq<Step>, chain: string, node: string): seq<Rule> {
    if steps == [] then []
    else
      var last := steps[|steps| - 1];
      if last.chain == chain && last.node == node then last.rules else RulesAt(steps[..|steps| - 1], chain, node)
  }

  /** `new Map(steps.filter(...).map(...))`. */
  method ByNode(steps: seq<Step>, chain: string) returns (byNode: map<string, seq<Rule>>)
    ensures forall n :: (if n in byNode then byNode[n] else []) == RulesAt(steps, chain, n)
  {
    byNode := map[];
    for k := 0 to |steps|
      invariant forall n :: (if n in byNode then byNode[n] else []) == RulesAt(steps[..k], chain, n)
    {
      var step := steps[k];
      assert steps[..k + 1][..k] == steps[..k];
      if step.chain == chain { byNode := byNode[step.node := step.rules]; }
    }
    assert steps[..|steps|] == steps;
  }

  ghost predicate Forwards(app: App, chain: string, from: string, to: string) {
    exists r :: r in RulesAt(app.steps, chain, from) && r.to == Some(to)
  }

  /** Where the first rule that matches anything and forwards leads. */
  function FirstAnyForward(rules: seq<Rule>): Option<string> {
    if rules == [] then None
    else if rules[0].any && rules[0].to.Some? then rules[0].to
    else FirstAnyForward(rules[1..])
  }

  lemma {:induction false} FirstAnyForwardForwards(rules: seq<Rule>)
    ensures FirstAnyForward(rules).Some? ==> exists r :: r in rules && r.any && r.to == FirstAnyForward(rules)
    ensures FirstAnyForward(rules).None? ==> forall r | r in rules && r.any :: r.to.None?
  {
    if rules != [] {
      FirstAnyForwardForwards(rules[1..]);
      assert rules[0] in rules;
    }
  }

  function NextOnSpine(app: App, chain: string, node: string): Option<string> {
    FirstAnyForward(RulesAt(app.steps, chain, node))
  }

  // ----- reachability

  ghost predicate IsPath(app: App, chain: string, path: seq<string>, from: string, to: string) {
    && path != [] && path[0] == from && path[|path| - 1] == to
    && forall i | 0 <= i < |path| - 1 :: Forwards(app, chain, path[i], path[i + 1])
  }

  ghost predicate Reachable(app: App, chain: string, from: string, to: string) {
    exists path :: IsPath(app, chain, path, from, to)
  }

  lemma ReachesItself(app: App, chain: string, node: string)
    ensures Reachable(app, chain, node, node)
  {
    assert IsPath(app, chain, [node], node, node);
  }

  lemma ReachesOn(app: App, chain: string, from: string, via: string, to: string)
    requires Reachable(app, chain, from, via) && Forwards(app, chain, via, to)
    ensures Reachable(app, chain, from, to)
  {
    var path :| IsPath(app, chain, path, from, via);
    assert IsPath(app, chain, path + [to], from, to);
  }

  ghost predicate Closed(app: App, chain: string, nodes: seq<string>) {
    forall n, t | n in nodes && Forwards(app, chain, n, t) :: t in nodes
  }

  lemma {:induction false} ClosedHoldsPath(app: App, chain: string, nodes: seq<string>, path: seq<string>,
                                           from: string, to: string)
    requires Closed(app, chain, nodes) && from in nodes && IsPath(app, chain, path, from, to)
    ensures to in nodes
  {
    if |path| > 1 {
      assert Forwards(app, chain, path[0], path[1]);
      ClosedHoldsPath(app, chain, nodes, path[1..], path[1], to);
    }
  }

  /** A closed list that holds a node holds everything reachable from it. */
  lemma ClosedHoldsReachable(app: App, chain: string, nodes: seq<string>, from: string)
    requires Closed(app, chain, nodes) && from in nodes
    ensures forall to | Reachable(app, chain, from, to) :: to in nodes
  {
    forall to | Reachable(app, chain, from, to) ensures to in nodes {
      var path :| IsPath(app, chain, path, from, to);
      ClosedHoldsPath(app, chain, nodes, path, from, to);
    }
  }

  // ----- nodes a rule table can name, which bounds both loops

  function Named(steps: seq<Step>): set<string> {
    set s, r | s in steps && r in s.rules && r.to.Some? :: r.to.value
  }

  lemma {:induction false} RulesNamed(steps: seq<Step>, chain: string, node: string)
    ensures forall r | r in RulesAt(steps, chain, node) && r.to.Some? :: r.to.value in Named(steps)
  {
    if steps != [] {
      RulesNamed(steps[..|steps| - 1], chain, node);
      assert forall s | s in steps[..|steps| - 1] :: s in steps;
      assert steps[|steps| - 1] in steps;
    }
  }

  ghost predicate Unique(nodes: seq<string>) {
    forall i, j | 0 <= i < j < |nodes| :: nodes[i] != nodes[j]
  }

  lemma {:induction false} UniqueFits(nodes: seq<string>, universe: set<string>)
    requires Unique(nodes) && forall n | n in nodes :: n in universe
    ensures |nodes| <= |universe|
  {
    if nodes != [] {
      var last := nodes[|nodes| - 1];
      UniqueFits(nodes[..|nodes| - 1], universe - {last});
    }
  }

  // ----- the spine

  ghost predicate Leads(app: App, chain: string, from: string, to: string) {
    NextOnSpine(app, chain, from) == Some(to) && to != ""
  }

  /** Follows the first any-forward rule from the head, without repeating a node, until there is
      none, it leads nowhere, or it leads back. */
  ghost predicate IsSpine(app: App, chain: string, head: string, path: seq<string>) {
    && path != [] && path[0] == head && Unique(path)
    && (forall i | 0 <= i < |path| - 1 :: Leads(app, chain, path[i], path[i + 1]))
    && var next := NextOnSpine(app, chain, path[|path| - 1]);
       next.None? || next.value == "" || next.value in path
  }

  /** A chain without a head, or whose head has no name, has no spine. */
  ghost predicate IsSpineOf(app: App, chain: string, head: Option<string>, path: seq<string>) {
    if head.None? || head.value == "" then path == [] else IsSpine(app, chain, head.value, path)
  }

  method ChainSpine(app: App, chain: string) returns (path: seq<string>)
    ensures exists head :: IsChainHead(app, chain, head) && IsSpineOf(app, chain, head, path)
  {
    var found := ChainHead(app, chain);
    if found.None? || found.value == "" { return []; }
    var byNode := ByNode(app.steps, chain);
    path := [found.value];
    var cur := found.value;
    ghost var universe := Named(app.steps) + {found.value};
    while true
      invariant path != [] && path[0] == found.value && path[|path| - 1] == cur && Unique(path)
      invariant forall i | 0 <= i < |path| - 1 :: Leads(app, chain, path[i], path[i + 1])
      invariant forall n | n in path :: n in universe
      decreases |universe| - |path|
    {
      var rules := if cur in byNode then byNode[cur] else [];
      var next := FirstAnyForward(rules);
      if next.None? || next.value == "" || next.value in path { break; }
      RulesNamed(app.steps, chain, cur);
      FirstAnyForwardForwards(rules);
      UniqueFits(path + [next.value], universe);
      path := path + [next.value];
      cur := next.value;
    }
    assert IsSpineOf(app, chain, found, path);
  }

  /** There is only one spine. */
  lemma SpineIsUnique(app: App, chain: string, head: string, x: seq<string>, y: seq<string>)
    requires IsSpine(app, chain, head, x) && IsSpine(app, chain, head, y)
    ensures x == y
  {
    SpinesAgree(app, chain, head, x, y, if |x| < |y| then |x| else |y|);
    SpineEnds(app, chain, head, x, y);
    SpineEnds(app, chain, head, y, x);
  }

  lemma {:induction false} SpinesAgree(app: App, chain: string, head: string, x: seq<string>, y: seq<string>, n: nat)
    requires IsSpine(app, chain, head, x) && IsSpine(app, chain, head, y) && 0 < n <= |x| && n <= |y|
    ensures x[..n] == y[..n]
  {
    if n > 1 {
      SpinesAgree(app, chain, head, x, y, n - 1);
      assert x[..n - 1][n - 2] == y[..n - 1][n - 2];
      assert Leads(app, chain, x[n - 2], x[n - 1]);
      assert Leads(app, chain, y[n - 2], y[n - 1]);
      assert x[..n] == x[..n - 1] + [x[n - 1]] && y[..n] == y[..n - 1] + [y[n - 1]];
    }
  }

  lemma SpineEnds(app: App, chain: string, head: string, x: seq<string>, y: seq<string>)
    requires IsSpine(app, chain, head, x) && IsSpine(app, chain, head, y)
    requires x[..if |x| < |y| then |x| else |y|] == y[..if |x| < |y| then |x| else |y|]
    ensures |x| >= |y|
  {
    var n := |x|;
    if n < |y| {
      assert x == y[..n] && x[n - 1] == y[n - 1];
      assert Leads(app, chain, y[n - 1], y[n]);
      NotBefore(y, n);
      assert false;
    }
  }

  lemma NotBefore(nodes: seq<string>, n: nat)
    requires Unique(nodes) && n < |nodes|
    ensures nodes[n] !in nodes[..n]
  {
  }

  /** Every machine on the spine is a member of the chain. */
  lemma {:induction false} SpineIsReachable(app: App, chain: string, head: string, path: seq<string>, i: nat)
    requires IsSpine(app, chain, head, path) && i < |path|
    ensures Reachable(app, chain, head, path[i])
  {
    if i == 0 {
      ReachesItself(app, chain, head);
    } else {
      SpineIsReachable(app, chain, head, path, i - 1);
      FirstAnyForwardForwards(RulesAt(app.steps, chain, path[i - 1]));
      ReachesOn(app, chain, head, path[i - 1], path[i]);
    }
  }

  /** The spine is the whole chain exactly when no machine on it forwards off it. */
  lemma SpineIsWholeChainIff(app: App, chain: string, head: string, path: seq<string>)
    requires IsSpine(app, chain, head, path)
    ensures (forall n :: Reachable(app, chain, head, n) <==> n in path) <==> Closed(app, chain, path)
  {
    forall n | n in path ensures Reachable(app, chain, head, n) {
      var i :| 0 <= i < |path| && path[i] == n;
      SpineIsReachable(app, chain, head, path, i);
    }
    if Closed(app, chain, path) { ClosedHoldsReachable(app, chain, path, head); }
    forall n, t | n in path && Forwards(app, chain, n, t) ensures Reachable(app, chain, head, t) {
      ReachesOn(app, chain, head, n, t);
    }
  }

  // ----- the members

  /** Exactly what the head reaches, each machine once, the head first. */
  ghost predicate AreMembersOf(app: App, chain: string, head: Option<string>, members: seq<string>) {
    if head.None? || head.value == "" then members == []
    else
      && members != [] && members[0] == head.value && Unique(members)
      && forall n :: n in members <==> Reachable(app, chain, head.value, n)
  }

  method ChainMembers(app: App, chain: string) returns (members: seq<string>)
    ensures exists head :: IsChainHead(app, chain, head) && AreMembersOf(app, chain, head, members)
  {
    var found := ChainHead(app, chain);
    if found.None? || found.value == "" { return []; }
    members := Explore(app, chain, found.value);
    assert AreMembersOf(app, chain, found, members);
  }

  /** The search from the head, breadth first. */
  method Explore(app: App, chain: string, from: string) returns (seen: seq<string>)
    requires from != ""
    ensures AreMembersOf(app, chain, Some(from), seen)
  {
    var byNode := ByNode(app.steps, chain);
    seen := [from];
    var queue := [from];
    ReachesItself(app, chain, from);
    ghost var universe := Named(app.steps) + {from};
    ghost var done: nat := 0;
    while queue != []
      invariant Growing(app, chain, from, universe, seen)
      invariant done <= |seen| && queue == seen[done..]
      invariant forall n, t | n in seen[..done] && Forwards(app, chain, n, t) :: t in seen
      decreases |universe| - |seen|, |queue|
    {
      var at := queue[0];
      assert at == seen[done] && seen[..done + 1] == seen[..done] + [at];
      ghost var start := seen;
      seen, queue := Visit(app, chain, from, universe, seen, queue[1..], at, if at in byNode then byNode[at] else []);
      assert seen[..done + 1] == start[..done + 1];
      done := done + 1;
      UniqueFits(seen, universe);
    }
    assert seen[..done] == seen;
    ClosedHoldsReachable(app, chain, seen, from);
  }

  /** The forward targets of one machine that were not seen are added at the end of both lists. */
  method Visit(ghost app: App, ghost chain: string, ghost from: string, ghost universe: set<string>,
               known: seq<string>, waiting: seq<string>, ghost at: string, rules: seq<Rule>)
    returns (seen: seq<string>, queue: seq<string>)
    requires Growing(app, chain, from, universe, known) && universe == Named(app.steps) + {from}
    requires at in known && rules == RulesAt(app.steps, chain, at)
    requires |waiting| <= |known| && waiting == known[|known| - |waiting|..]
    ensures Growing(app, chain, from, universe, seen) && known <= seen
    ensures |queue| - |waiting| == |seen| - |known| && queue == seen[|known| - |waiting|..]
    ensures forall t | Forwards(app, chain, at, t) :: t in seen
  {
    seen, queue := known, waiting;
    for k := 0 to |rules|
      invariant Growing(app, chain, from, universe, seen) && known <= seen
      invariant |queue| - |waiting| == |seen| - |known| && queue == seen[|known| - |waiting|..]
      invariant forall j | 0 <= j < k && rules[j].to.Some? :: rules[j].to.value in seen
    {
      var to := rules[k].to;
      if to.None? || to.value in seen { continue; }
      Discover(app, chain, from, universe, seen, at, rules[k]);
      seen := seen + [to.value];
      queue := queue + [to.value];
    }
  }

  /** What holds of the machines found so far. */
  ghost predicate Growing(app: App, chain: string, from: string, universe: set<string>, seen: seq<string>) {
    && seen != [] && seen[0] == from && Unique(seen)
    && (forall n | n in seen :: n in universe && Reachable(app, chain, from, n))
  }

  lemma Discover(app: App, chain: string, from: string, universe: set<string>, seen: seq<string>, at: string,
                 rule: Rule)
    requires Growing(app, chain, from, universe, seen) && universe == Named(app.steps) + {from}
    requires at in seen && rule in RulesAt(app.steps, chain, at) && rule.to.Some? && rule.to.value !in seen
    ensures Growing(app, chain, from, universe, seen + [rule.to.value])
  {
    RulesNamed(app.steps, chain, at);
    ReachesOn(app, chain, from, at, rule.to.value);
  }
}
