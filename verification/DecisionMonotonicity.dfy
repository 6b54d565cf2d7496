/**
 * Two runs of the decision on one request, the second under larger grants: what was accepted stays accepted,
 * and exactly when it does not. The second run may still have to read the body when the first has read it
 * already, since broad permission skips the checks by name; apart from that the requests are the same between
 * rules. Gateway mutations and scorer listings are where an acceptance can be lost, and each has its
 * condition and a request for which it fails.
 */
module DecisionMonotonicity {
  import opened Wrappers
  import opened Json
  import opened Requests
  import opened GetBody
  import opened Narrowing
  import opened IdFilters
  import opened ResourceNames
  import opened Authority
  import opened Gateway
  import opened Decision

  /** Larger grants, a store that answers every lookup, and searches that keep applying and change nothing when they do not. */
  ghost predicate Larger(a: Env, b: Env) {
    && GrantsGrow(a, b) && TotalStore(a) && TotalGateway(a)
    && SearchGrows(a, b)
    && (forall kind, ws, r :: !a.search(kind, ws, r).1 ==> a.search(kind, ws, r).0 == r)
    && (forall kind, ws, r :: !b.search(kind, ws, r).1 ==> b.search(kind, ws, r).0 == r)
  }

  predicate GatewayMutation(rule: Rule) {
    Guarded(rule, "gatewayendpoints") || Guarded(rule, "gatewaymodeldefinitions")
  }

  /** A rule without a request filter. */
  predicate Plain(rule: Rule) {
    rule.policy.NoPolicy? || rule.policy.BroadOnly? || rule.policy.GraphQLFilter?
  }

  /** A rule with a request filter other than the scorers'. */
  predicate Filtering(rule: Rule) {
    rule.policy.ExperimentIds? || rule.policy.ExperimentId? || rule.policy.RunIds? || rule.policy.AuthorizedIds? || rule.policy.Search?
  }

  /** The run under larger grants may not have loaded the body yet; otherwise the requests are the same. */
  ghost predicate Behind(large: Request, small: Request) {
    small == large || small == Load(large, false)
  }

  lemma MoreAllowed(a: Env, b: Env, ws: string, rule: Rule)
    requires GrantsGrow(a, b)
    ensures CanAccess(a, ws) ==> CanAccess(b, ws)
    ensures rule.verb.Some? && rule.resource.Some? ==>
      (forall n :: May(a, ws, rule, n) ==> May(b, ws, rule, n)) && (forall res :: MayOnAll(a, ws, rule, res) ==> MayOnAll(b, ws, rule, res))
  {
    if CanAccess(a, ws) {
      var resource :| resource in WorkspaceResources() && a.allowed(Review(resource, "get", ws, None, None));
      assert b.allowed(Review(resource, "get", ws, None, None));
    }
  }

  // ----- The parts of an RBAC rule -----

  /** What the checks by name and by filter leave. */
  function Checked(env: Env, ws: string, rule: Rule, r: Request): Outcome
    requires rule.verb.Some? && rule.resource.Some?
  {
    ByFilter(env, ws, rule, ByName(env, ws, rule, r))
  }

  /** The rest of an RBAC rule once the budget is checked. */
  function AfterBudget(env: Env, ws: string, rule: Rule, r: Request): Result<Request, Refusal>
    requires rule.verb.Some? && rule.resource.Some?
  {
    if ByName(env, ws, rule, r).exempt then Ok(ByName(env, ws, rule, r).request)
    else if Checked(env, ws, rule, r).1 then CheckUse(env, ws, rule, Checked(env, ws, rule, r).0)
    else Err(Forbidden)
  }

  lemma RbacByParts(env: Env, ws: string, rule: Rule, r: Request)
    requires !rule.policy.ListScorers? && rule.verb.Some?
    ensures CheckRbac(env, ws, rule, r).Ok? ==> CheckBudget(rule, r).Ok? && rule.resource.Some? && rule.resource.value != ""
    ensures CheckBudget(rule, r).Ok? && rule.resource.Some? && rule.resource.value != "" ==>
      CheckRbac(env, ws, rule, r) == AfterBudget(env, ws, rule, CheckBudget(rule, r).value)
  {
  }

  lemma BudgetGrows(rule: Rule, small: Request, large: Request)
    requires Behind(large, small) && CheckBudget(rule, small).Ok?
    ensures CheckBudget(rule, large).Ok? && Behind(CheckBudget(rule, large).value, CheckBudget(rule, small).value)
  {
    LoadTwice(large);
  }

  /** The dependency check passes where a rule comes to it: unless a missing reference is enough. */
  ghost predicate MutationPasses(env: Env, ws: string, rule: Rule, r: Request)
    requires rule.verb.Some? && rule.resource.Some?
  {
    ByName(env, ws, rule, r).exempt || SeenUseHolds(env, ws, rule, Checked(env, ws, rule, r).0)
  }

  /** The same for any rule, as the run comes to it. */
  ghost predicate RulePasses(env: Env, ws: Option<string>, rule: Rule, r: Request) {
    rule.verb.Some? && rule.resource.Some? && ws.Some? && CheckBudget(rule, r).Ok? ==>
      MutationPasses(env, ws.value, rule, CheckBudget(rule, r).value)
  }

  /** The same for every rule in turn, on the request the run has by then. */
  ghost predicate RulesPass(env: Env, ws: Option<string>, rules: seq<Rule>, r: Request) {
    if rules == [] then true
    else
      var front, last := rules[..|rules| - 1], rules[|rules| - 1];
      RulesPass(env, ws, front, r) && (CheckRules(env, ws, front, r).Ok? ==> RulePasses(env, ws, last, CheckRules(env, ws, front, r).value))
  }

  // ----- Rules without a filter -----

  lemma PlainAttempt(env: Env, ws: string, policy: Policy, r: Request)
    requires policy.NoPolicy? || policy.BroadOnly? || policy.GraphQLFilter?
    ensures Attempt(env, ws, policy, r) == (Load(r, false), false)
  {
  }

  lemma PlainGrantGrows(a: Env, b: Env, ws: string, rule: Rule, small: Request, large: Request)
    requires GrantsGrow(a, b) && Behind(large, small) && Plain(rule) && rule.verb.Some? && rule.resource.Some?
    requires !ByName(a, ws, rule, small).exempt && Checked(a, ws, rule, small).1
    ensures !ByName(b, ws, rule, large).exempt && Checked(b, ws, rule, large).1
    ensures Behind(Checked(b, ws, rule, large).0, Checked(a, ws, rule, small).0)
  {
    MoreAllowed(a, b, ws, rule);
    LoadTwice(large);
    LoadTwice(small);
    PlainAttempt(a, ws, rule.policy, ByName(a, ws, rule, small).request);
    PlainAttempt(b, ws, rule.policy, ByName(b, ws, rule, large).request);
  }

  lemma EndpointUseStaysBehind(a: Env, b: Env, ws: string, rule: Rule, r: Request)
    requires GrantsGrow(a, b) && EndpointUse(a, ws, rule, r).Ok? && EndpointUse(b, ws, rule, r).Ok?
    ensures EndpointUse(b, ws, rule, r).value == EndpointUse(a, ws, rule, r).value
  {
    SameFound(a, b, rule, r);
  }

  lemma DefinitionUseStaysBehind(a: Env, b: Env, ws: string, rule: Rule, r: Request)
    requires GrantsGrow(a, b) && DefinitionUse(a, ws, rule, r).Ok? && DefinitionUse(b, ws, rule, r).Ok?
    ensures Behind(DefinitionUse(b, ws, rule, r).value, DefinitionUse(a, ws, rule, r).value)
  {
    SameFound(a, b, rule, r);
    MoreUse(a, b, ws, "gatewaysecrets");
  }

  lemma UseStaysBehind(a: Env, b: Env, ws: string, rule: Rule, r: Request)
    requires GrantsGrow(a, b) && CheckUse(a, ws, rule, r).Ok? && CheckUse(b, ws, rule, r).Ok?
    ensures Behind(CheckUse(b, ws, rule, r).value, CheckUse(a, ws, rule, r).value)
  {
    if !rule.skipGateway && Mutates(rule, "gatewayendpoints") {
      EndpointUseStaysBehind(a, b, ws, rule, r);
    } else if !rule.skipGateway && Mutates(rule, "gatewaymodeldefinitions") {
      DefinitionUseStaysBehind(a, b, ws, rule, r);
    }
  }

  /** Once both pass the dependency check, the run under larger grants is still behind. */
  lemma UseKeepsBehind(a: Env, b: Env, ws: string, rule: Rule, small: Request, large: Request)
    requires GrantsGrow(a, b) && Behind(large, small) && CheckUse(a, ws, rule, small).Ok? && CheckUse(b, ws, rule, large).Ok?
    ensures Behind(CheckUse(b, ws, rule, large).value, CheckUse(a, ws, rule, small).value)
  {
    if small == large {
      UseStaysBehind(a, b, ws, rule, small);
    } else {
      UseOnlyLoads(a, ws, rule, small);
      UseOnlyLoads(b, ws, rule, large);
      LoadTwice(large);
    }
  }

  lemma ExemptionGrows(a: Env, b: Env, ws: string, rule: Rule, small: Request, large: Request)
    requires GrantsGrow(a, b) && Behind(large, small) && rule.verb.Some? && rule.resource.Some?
    requires ByName(a, ws, rule, small).exempt
    ensures ByName(a, ws, rule, small).request == Load(large, false)
    ensures ByName(b, ws, rule, large).request == large || ByName(b, ws, rule, large).request == Load(large, false)
    ensures ByName(b, ws, rule, large).exempt || ByName(b, ws, rule, large).granted
  {
    MoreAllowed(a, b, ws, rule);
    LoadTwice(large);
  }

  lemma ExemptRestGrows(a: Env, b: Env, ws: string, rule: Rule, small: Request, large: Request)
    requires GrantsGrow(a, b) && Behind(large, small) && rule.verb.Some? && rule.resource.Some? && ByName(a, ws, rule, small).exempt
    ensures AfterBudget(b, ws, rule, large).Ok? <==> MutationPasses(b, ws, rule, large)
    ensures AfterBudget(b, ws, rule, large).Ok? ==> Behind(AfterBudget(b, ws, rule, large).value, AfterBudget(a, ws, rule, small).value)
  {
    ExemptionGrows(a, b, ws, rule, small, large);
    LoadTwice(large);
    var checked := Checked(b, ws, rule, large).0;
    UseIffSeen(b, ws, rule, checked);
    if !ByName(b, ws, rule, large).exempt && CheckUse(b, ws, rule, checked).Ok? {
      UseOnlyLoads(b, ws, rule, checked);
    }
  }

  lemma PlainRestGrowsIff(a: Env, b: Env, ws: string, rule: Rule, small: Request, large: Request)
    requires GrantsGrow(a, b) && Behind(large, small) && Plain(rule) && rule.verb.Some? && rule.resource.Some?
    requires AfterBudget(a, ws, rule, small).Ok?
    ensures AfterBudget(b, ws, rule, large).Ok? <==> MutationPasses(b, ws, rule, large)
    ensures AfterBudget(b, ws, rule, large).Ok? ==> Behind(AfterBudget(b, ws, rule, large).value, AfterBudget(a, ws, rule, small).value)
  {
    if ByName(a, ws, rule, small).exempt {
      ExemptRestGrows(a, b, ws, rule, small, large);
    } else {
      PlainGrantGrows(a, b, ws, rule, small, large);
      UseIffSeen(b, ws, rule, Checked(b, ws, rule, large).0);
      if AfterBudget(b, ws, rule, large).Ok? {
        UseKeepsBehind(a, b, ws, rule, Checked(a, ws, rule, small).0, Checked(b, ws, rule, large).0);
      }
    }
  }

  lemma PlainRbacGrowsIff(a: Env, b: Env, ws: string, rule: Rule, small: Request, large: Request)
    requires GrantsGrow(a, b) && Behind(large, small) && Plain(rule) && rule.verb.Some? && CheckRbac(a, ws, rule, small).Ok?
    ensures CheckRbac(b, ws, rule, large).Ok? <==> RulePasses(b, Some(ws), rule, large)
    ensures CheckRbac(b, ws, rule, large).Ok? ==> Behind(CheckRbac(b, ws, rule, large).value, CheckRbac(a, ws, rule, small).value)
  {
    RbacByParts(a, ws, rule, small);
    RbacByParts(b, ws, rule, large);
    BudgetGrows(rule, small, large);
    PlainRestGrowsIff(a, b, ws, rule, CheckBudget(rule, small).value, CheckBudget(rule, large).value);
  }

  lemma PlainRuleGrowsIff(a: Env, b: Env, ws: Option<string>, rule: Rule, small: Request, large: Request)
    requires GrantsGrow(a, b) && Behind(large, small) && Plain(rule) && CheckRule(a, ws, rule, small).Ok?
    ensures CheckRule(b, ws, rule, large).Ok? <==> RulePasses(b, ws, rule, large)
    ensures CheckRule(b, ws, rule, large).Ok? ==> Behind(CheckRule(b, ws, rule, large).value, CheckRule(a, ws, rule, small).value)
  {
    if rule.verb.Some? {
      PlainRbacGrowsIff(a, b, ws.value, rule, small, large);
    } else if ws.Some? {
      MoreAllowed(a, b, ws.value, rule);
    }
  }

  lemma {:induction false} PlainRulesGrowIff(a: Env, b: Env, ws: Option<string>, rules: seq<Rule>, r: Request)
    requires GrantsGrow(a, b) && CheckRules(a, ws, rules, r).Ok?
    requires forall i :: 0 <= i < |rules| ==> Plain(rules[i])
    ensures CheckRules(b, ws, rules, r).Ok? <==> RulesPass(b, ws, rules, r)
    ensures CheckRules(b, ws, rules, r).Ok? ==> Behind(CheckRules(b, ws, rules, r).value, CheckRules(a, ws, rules, r).value)
  {
    if rules != [] {
      var front, last := rules[..|rules| - 1], rules[|rules| - 1];
      PlainRulesGrowIff(a, b, ws, front, r);
      if CheckRules(b, ws, front, r).Ok? {
        PlainRuleGrowsIff(a, b, ws, last, CheckRules(a, ws, front, r).value, CheckRules(b, ws, front, r).value);
      }
    }
  }

  /** No gateway mutation is reference-optional or on a DELETE request. */
  predicate Steady(rule: Rule, r: Request) {
    GatewayMutation(rule) ==> !rule.allowIfMissing && r.verb != "DELETE"
  }

  lemma KeepsVerb(env: Env, ws: string, rule: Rule, r: Request)
    requires Plain(rule) && rule.verb.Some? && rule.resource.Some?
    ensures Checked(env, ws, rule, r).0.verb == r.verb
  {
    PlainAttempt(env, ws, rule.policy, ByName(env, ws, rule, r).request);
  }

  lemma SteadyMutationPasses(a: Env, b: Env, ws: string, rule: Rule, small: Request, large: Request)
    requires GrantsGrow(a, b) && TotalGateway(a) && Behind(large, small) && Plain(rule) && Steady(rule, large)
    requires rule.verb.Some? && rule.resource.Some? && AfterBudget(a, ws, rule, small).Ok?
    ensures MutationPasses(b, ws, rule, large)
  {
    if GatewayMutation(rule) {
      PlainGrantGrows(a, b, ws, rule, small, large);
      var x, y := Checked(a, ws, rule, small).0, Checked(b, ws, rule, large).0;
      KeepsVerb(b, ws, rule, large);
      UseGrows(a, b, ws, rule, x);
      if x != y {
        UseBeforeLoading(b, ws, rule, y);
      }
      UseIffSeen(b, ws, rule, y);
    }
  }

  lemma SteadyRulePasses(a: Env, b: Env, ws: Option<string>, rule: Rule, small: Request, large: Request)
    requires GrantsGrow(a, b) && TotalGateway(a) && Behind(large, small) && Plain(rule) && Steady(rule, large) && CheckRule(a, ws, rule, small).Ok?
    ensures RulePasses(b, ws, rule, large)
  {
    if rule.verb.Some? && rule.resource.Some? && CheckBudget(rule, large).Ok? {
      RbacByParts(a, ws.value, rule, small);
      BudgetGrows(rule, small, large);
      SteadyMutationPasses(a, b, ws.value, rule, CheckBudget(rule, small).value, CheckBudget(rule, large).value);
    }
  }

  lemma PlainKeepsVerb(env: Env, ws: Option<string>, rule: Rule, r: Request)
    requires Plain(rule) && CheckRule(env, ws, rule, r).Ok?
    ensures CheckRule(env, ws, rule, r).value.verb == r.verb
  {
    if rule.verb.Some? {
      RbacByParts(env, ws.value, rule, r);
      var budget := CheckBudget(rule, r).value;
      KeepsVerb(env, ws.value, rule, budget);
      if !ByName(env, ws.value, rule, budget).exempt {
        UseOnlyLoads(env, ws.value, rule, Checked(env, ws.value, rule, budget).0);
      }
    }
  }

  lemma {:induction false} SteadyRulesGrow(a: Env, b: Env, ws: Option<string>, rules: seq<Rule>, r: Request)
    requires GrantsGrow(a, b) && TotalGateway(a) && CheckRules(a, ws, rules, r).Ok?
    requires forall i :: 0 <= i < |rules| ==> Plain(rules[i]) && Steady(rules[i], r)
    ensures CheckRules(b, ws, rules, r).Ok? && CheckRules(b, ws, rules, r).value.verb == r.verb
  {
    if rules != [] {
      var front, last := rules[..|rules| - 1], rules[|rules| - 1];
      SteadyRulesGrow(a, b, ws, front, r);
      PlainRulesGrowIff(a, b, ws, front, r);
      var small, large := CheckRules(a, ws, front, r).value, CheckRules(b, ws, front, r).value;
      SteadyRulePasses(a, b, ws, last, small, large);
      PlainRuleGrowsIff(a, b, ws, last, small, large);
      PlainKeepsVerb(b, ws, last, large);
    }
  }

  // ----- One rule with a filter -----

  lemma FailedFilterChangesNothing(env: Env, ws: string, policy: Policy, r: Request)
    requires forall kind, ws, r :: !env.search(kind, ws, r).1 ==> env.search(kind, ws, r).0 == r
    requires !Filtered(env, ws, policy, r).1
    ensures Filtered(env, ws, policy, r).0 == r
  {
    match policy
    case ExperimentIds => FailedIdFilterChangesNothing(r, "experiment_ids", IdReader(env, ws));
    case RunIds => FailedIdFilterChangesNothing(r, "run_ids", RunReader(env, ws));
    case AuthorizedIds => FailedNarrowingChangesNothing(r, ScopeOf(env, ws), IdsOf(env, ScopeOf(env, ws).names));
    case ListScorers => FailedScorersChangeNothing(env, ws, r);
    case ExperimentId =>
    case Search(kind, _) => assert env.search(kind, ws, r).0 == r;
    case NoPolicy => case BroadOnly => case GraphQLFilter =>
  }

  lemma FailedIdFilterChangesNothing(r: Request, key: string, canRead: string -> bool)
    ensures !FilterIds(r, key, canRead).1 ==> FilterIds(r, key, canRead).0 == r
  {
  }

  lemma FailedScorersChangeNothing(env: Env, ws: string, r: Request)
    ensures !FilterScorers(env, ws, r).1 ==> FilterScorers(env, ws, r).0 == r
  {
    FailedNarrowingChangesNothing(r, ScopeOf(env, ws), IdsOf(env, ScopeOf(env, ws).names));
  }

  lemma FailedNarrowingChangesNothing(r: Request, scope: Scope, allowed: Result<seq<string>, ()>)
    ensures !NarrowToScope(r, scope, allowed).1 ==> NarrowToScope(r, scope, allowed).0 == r
  {
  }

  lemma AttemptGrows(a: Env, b: Env, ws: string, policy: Policy, r: Request)
    requires Larger(a, b) && Attempt(a, ws, policy, r).1
    ensures Attempt(b, ws, policy, r).1
  {
    var from := if Messaged(policy) then Load(r, true) else r;
    ApplyGrows(a, b, ws, policy, from);
    if !Apply(b, ws, policy, from).1 {
      var r1 := if Messaged(policy) then Normalized(from, a.fields(policy), a.codec).0 else from;
      assert Normalized(from, b.fields(policy), b.codec) == Normalized(from, a.fields(policy), a.codec);
      if Messaged(policy) && !Normalized(from, a.fields(policy), a.codec).1 {
      } else {
        FailedFilterChangesNothing(a, ws, policy, r1);
        FailedFilterChangesNothing(b, ws, policy, r1);
      }
      assert Apply(a, ws, policy, from).0 == Apply(b, ws, policy, from).0;
      ApplyGrows(a, b, ws, policy, Load(Apply(a, ws, policy, from).0, false));
    }
  }

  lemma FilterGrantGrows(a: Env, b: Env, ws: string, rule: Rule, r: Request)
    requires Larger(a, b) && (Filtering(rule) || rule.policy.ListScorers?) && rule.verb.Some? && rule.resource.Some?
    requires ByName(a, ws, rule, r).exempt || Checked(a, ws, rule, r).1
    ensures ByName(b, ws, rule, r).exempt || Checked(b, ws, rule, r).1
  {
    MoreAllowed(a, b, ws, rule);
    var s, l := ByName(a, ws, rule, r), ByName(b, ws, rule, r);
    if !s.granted && !s.exempt && !l.granted {
      AttemptGrows(a, b, ws, rule.policy, s.request);
    }
  }

  lemma FilterRestGrowsIff(a: Env, b: Env, ws: string, rule: Rule, r: Request)
    requires Larger(a, b) && (Filtering(rule) || rule.policy.ListScorers?) && rule.verb.Some? && rule.resource.Some?
    requires AfterBudget(a, ws, rule, r).Ok?
    ensures AfterBudget(b, ws, rule, r).Ok? <==> MutationPasses(b, ws, rule, r)
  {
    FilterGrantGrows(a, b, ws, rule, r);
    UseIffSeen(b, ws, rule, Checked(b, ws, rule, r).0);
  }

  lemma FilterRuleGrowsIff(a: Env, b: Env, ws: Option<string>, rule: Rule, r: Request)
    requires Larger(a, b) && Filtering(rule) && CheckRule(a, ws, rule, r).Ok?
    ensures CheckRule(b, ws, rule, r).Ok? <==> RulePasses(b, ws, rule, r)
  {
    if rule.verb.Some? {
      RbacByParts(a, ws.value, rule, r);
      RbacByParts(b, ws.value, rule, r);
      FilterRestGrowsIff(a, b, ws.value, rule, CheckBudget(rule, r).value);
    } else if ws.Some? {
      MoreAllowed(a, b, ws.value, rule);
    }
  }

  // ----- The scorer listing -----

  /** With broad permission, the selector must be usable: a query, or a body the message takes, without an empty id list. */
  predicate SelectorUsable(env: Env, rule: Rule, r: Request) {
    r.query != map[]
    || var (r1, ok) := Normalized(Load(r, true), env.fields(rule.policy), env.codec);
       ok && !("experiment_ids" in r1.query && r1.query["experiment_ids"] == List([]))
  }

  lemma ScorersByParts(env: Env, ws: string, rule: Rule, r: Request)
    requires rule.policy.ListScorers? && rule.verb.Some? && rule.resource.Some? && rule.resource.value != "" && !ChecksBudget(rule)
    ensures var kept := if May(env, ws, rule, None) then KeepScorers(env, rule, r) else Ok(r);
            CheckRbac(env, ws, rule, r) == if kept.Ok? then AfterBudget(env, ws, rule, kept.value) else kept
    ensures KeepScorers(env, rule, r).Ok? <==> SelectorUsable(env, rule, r)
  {
  }

  /** A scorer listing that was accepted stays accepted exactly if broad permission is not gained or the selector is usable. */
  lemma ScorersStayAcceptedIff(a: Env, b: Env, ws: string, rule: Rule, r: Request)
    requires Larger(a, b) && rule.policy.ListScorers? && rule.verb.Some? && !ChecksBudget(rule) && !GatewayMutation(rule)
    requires CheckRule(a, Some(ws), rule, r).Ok?
    ensures CheckRule(b, Some(ws), rule, r).Ok? <==> (May(b, ws, rule, None) ==> SelectorUsable(b, rule, r))
  {
    ScorersByParts(a, ws, rule, r);
    ScorersByParts(b, ws, rule, r);
    MoreAllowed(a, b, ws, rule);
    if May(b, ws, rule, None) {
      if SelectorUsable(b, rule, r) {
        BroadPasses(b, ws, rule, KeepScorers(b, rule, r).value);
      }
    } else {
      FilterRestGrowsIff(a, b, ws, rule, r);
    }
  }

  lemma BroadPasses(env: Env, ws: string, rule: Rule, r: Request)
    requires rule.verb.Some? && rule.resource.Some? && May(env, ws, rule, None) && !GatewayMutation(rule)
    ensures AfterBudget(env, ws, rule, r).Ok?
  {
  }

  /** It can be lost: an empty id list in the body passes with a broad scope, and is refused with broad permission. */
  lemma BroadGrantCanRefuseScorers(a: Env, b: Env, ws: string, rule: Rule, r: Request)
    requires rule.policy.ListScorers? && rule.verb == Some("list") && rule.resource == Some("experiments") && rule.parsers == [] && !rule.deny
    requires !May(a, ws, rule, None) && May(b, ws, rule, None) && ScopeOf(a, ws).broad
    requires a.fields == b.fields && a.codec == b.codec && a.fields(ListScorers) == [Field("experiment_ids", "experimentIds", true)]
    requires a.codec.convert(Field("experiment_ids", "experimentIds", true), List([])) == Some(List([]))
    requires r.verb == "GET" && r.query == map[] && r.body == Some(Object(map["experiment_ids" := List([])]))
    ensures CheckRule(a, Some(ws), rule, r).Ok? && CheckRule(b, Some(ws), rule, r) == Err(ScorerInput)
  {
    var moved := r.(body := None, query := map["experiment_ids" := List([])]);
    EmptyListMoves(r, a.codec);
    assert Normalized(r, a.fields(ListScorers), a.codec) == (moved, true);
    assert FilterScorers(a, ws, moved) == (moved, true) by {
      assert |"experiment_id"| == 13 && |"experiment_ids"| == 14;
    }
    ScorersByParts(a, ws, rule, r);
    ScorersByParts(b, ws, rule, r);
    assert Attempt(a, ws, ListScorers, r) == (moved, true);
    assert AfterBudget(a, ws, rule, r) == CheckUse(a, ws, rule, moved);
  }

  lemma EmptyListMoves(r: Request, codec: Codec)
    requires codec.convert(Field("experiment_ids", "experimentIds", true), List([])) == Some(List([]))
    requires r.verb == "GET" && r.query == map[] && r.body == Some(Object(map["experiment_ids" := List([])]))
    ensures Normalized(r, [Field("experiment_ids", "experimentIds", true)], codec) ==
      (r.(body := None, query := map["experiment_ids" := List([])]), true)
  {
    var f := Field("experiment_ids", "experimentIds", true);
    var body := map["experiment_ids" := List([])];
    assert |"experiment_ids"| == 14 && |"experimentIds"| == 13;
    assert [f][..0] == [];
    assert !BothSpellings(f, body) && Present(f, body) && Given(f, body) == List([]);
    assert Usable([f], body, codec);
    assert QueryOf([f], body, codec) == map["experiment_ids" := List([])];
  }

  // ----- The whole decision -----

  lemma SameStart(a: Env, b: Env, cfg: Config, r: Request)
    requires GrantsGrow(a, b)
    ensures Prepare(a, cfg, r) == Prepare(b, cfg, r)
  {
  }

  lemma OneRule(env: Env, ws: Option<string>, rules: seq<Rule>, r: Request)
    requires |rules| == 1
    ensures CheckRules(env, ws, rules, r) == CheckRule(env, ws, rules[0], r)
    ensures RulesPass(env, ws, rules, r) <==> RulePasses(env, ws, rules[0], r)
  {
    assert rules[..0] == [];
    assert CheckRules(env, ws, rules[..0], r) == Ok(r) && RulesPass(env, ws, rules[..0], r);
  }

  /** All rules are without filters, or one rule with a filter stands alone. */
  ghost predicate Simple(rules: seq<Rule>) {
    (forall i :: 0 <= i < |rules| ==> Plain(rules[i])) || (|rules| == 1 && Filtering(rules[0]))
  }

  /**
   * Under larger grants an accepted request stays accepted exactly if every gateway mutation among its rules
   * passes its dependency check where the larger run comes to it.
   */
  lemma AcceptedStaysAcceptedIff(a: Env, b: Env, cfg: Config, r: Request)
    requires Larger(a, b)
    ensures Decided(a, cfg, r).Ok? && Simple(Decided(a, cfg, r).value.rules) ==>
              var start := Prepare(b, cfg, r).value;
              && start.rules == Decided(a, cfg, r).value.rules
              && (Decided(b, cfg, r).Ok? <==> RulesPass(b, start.workspace, start.rules, start.request))
  {
    if Decided(a, cfg, r).Ok? && Simple(Decided(a, cfg, r).value.rules) {
      SameStart(a, b, cfg, r);
      RulesStayMetIff(a, b, Prepare(a, cfg, r).value);
    }
  }

  lemma RulesStayMetIff(a: Env, b: Env, start: Start)
    requires Larger(a, b) && Simple(start.rules) && CheckRules(a, start.workspace, start.rules, start.request).Ok?
    ensures CheckRules(b, start.workspace, start.rules, start.request).Ok? <==> RulesPass(b, start.workspace, start.rules, start.request)
  {
    if forall i :: 0 <= i < |start.rules| ==> Plain(start.rules[i]) {
      PlainRulesGrowIff(a, b, start.workspace, start.rules, start.request);
    } else {
      OneRule(a, start.workspace, start.rules, start.request);
      OneRule(b, start.workspace, start.rules, start.request);
      FilterRuleGrowsIff(a, b, start.workspace, start.rules[0], start.request);
    }
  }

  /** No filter rule is a gateway mutation; no other gateway mutation is reference-optional or a DELETE request. */
  ghost predicate Monotone(rules: seq<Rule>, r: Request) {
    || (forall i :: 0 <= i < |rules| ==> Plain(rules[i]) && Steady(rules[i], r))
    || (|rules| == 1 && Filtering(rules[0]) && !GatewayMutation(rules[0]))
  }

  /** In particular, growing the grants never turns an accepted request into a refused one. */
  lemma AcceptedStaysAccepted(a: Env, b: Env, cfg: Config, r: Request)
    requires Larger(a, b)
    ensures Decided(a, cfg, r).Ok? && Monotone(Decided(a, cfg, r).value.rules, r) ==>
              Decided(b, cfg, r).Ok? && Decided(b, cfg, r).value.rules == Decided(a, cfg, r).value.rules
  {
    if Decided(a, cfg, r).Ok? && Monotone(Decided(a, cfg, r).value.rules, r) {
      SameStart(a, b, cfg, r);
      RulesStayMet(a, b, Prepare(a, cfg, r).value, r);
    }
  }

  lemma RulesStayMet(a: Env, b: Env, start: Start, r: Request)
    requires Larger(a, b) && start.request.verb == r.verb && Monotone(start.rules, r)
    requires CheckRules(a, start.workspace, start.rules, start.request).Ok?
    ensures CheckRules(b, start.workspace, start.rules, start.request).Ok?
  {
    if forall i :: 0 <= i < |start.rules| ==> Plain(start.rules[i]) && Steady(start.rules[i], r) {
      SteadyRulesGrow(a, b, start.workspace, start.rules, start.request);
    } else {
      OneRule(a, start.workspace, start.rules, start.request);
      OneRule(b, start.workspace, start.rules, start.request);
      FilterRuleGrowsIff(a, b, start.workspace, start.rules[0], start.request);
    }
  }

  // ----- Gateway mutations -----

  /**
   * A caller who gains broad permission on a gateway mutation keeps an acceptance, by name or by a missing
   * reference, exactly if use is granted for what the request itself names, without its body being read when
   * that names something, or reading it otherwise.
   */
  lemma BroadGrantKeepsMutationIff(a: Env, b: Env, ws: string, rule: Rule, r: Request)
    requires GrantsGrow(a, b) && GatewayMutation(rule) && Plain(rule)
    requires CheckRule(a, Some(ws), rule, r).Ok? && May(b, ws, rule, None)
    ensures CheckRule(b, Some(ws), rule, r).Ok? <==> SeenUseHolds(b, ws, rule, if Hybrid(rule) then Load(r, false) else r)
  {
    PlainRuleGrowsIff(a, b, Some(ws), rule, r, r);
    assert CheckBudget(rule, r) == Ok(r);
  }

  /** A gateway endpoint creation that a missing reference lets through. */
  function OptionalCreation(): Rule {
    Rule(Some("create"), Some("gatewayendpoints"), None, ["name"], NoPolicy, false, false, true, false, false, None, true, false, false, false)
  }

  /** Grants nothing, or only broad creation of endpoints; no request has a reference. */
  function CreationOnly(granted: bool): Env {
    Env((q: Review) => granted && q.resource == "gatewayendpoints" && q.subresource.None?,
        (ws: string) => [],
        (id: string) => Some((r: Request) => NotPresent),
        (id: string) => None, (id: string) => None, (name: string) => Ok(None),
        (kind: string, ws: string, r: Request) => (r, false),
        (policy: Policy) => [], Codec((s: string) => None, (f: Field, v: Value) => None),
        (id: string) => Some(id), (id: string) => Some(id), (id: string) => [], (id: string) => Null)
  }

  /** It can be lost: the creation passes without any permission, and is refused with broad permission alone. */
  lemma BroadGrantCanRefuse()
    ensures var rule, r := OptionalCreation(), Request("/gateway/endpoints/create", "POST", Some("ws"), map[], map[], Some(Object(map[])), None, 0);
            CheckRule(CreationOnly(false), Some("ws"), rule, r).Ok? && CheckRule(CreationOnly(true), Some("ws"), rule, r) == Err(DefinitionUseRequired)
  {
    var rule, r := OptionalCreation(), Request("/gateway/endpoints/create", "POST", Some("ws"), map[], map[], Some(Object(map[])), None, 0);
    var a, b := CreationOnly(false), CreationOnly(true);
    assert Resolve(a.parsers, r, ["name"]).Missing? by {
      assert ["name"][..0] == [];
    }
    assert CheckRbac(a, "ws", rule, r) == Ok(r);
    UseIsRefused(b, "ws", rule, r);
    assert ByFilter(b, "ws", rule, ByName(b, "ws", rule, r)) == (r, true);
    assert CheckRbac(b, "ws", rule, r) == Err(DefinitionUseRequired);
  }

  lemma UseIsRefused(env: Env, ws: string, rule: Rule, r: Request)
    requires rule.verb == Some("create") && rule.resource == Some("gatewayendpoints") && rule.subresource.None? && !rule.skipGateway
    requires forall name :: !MayUse(env, ws, "gatewaymodeldefinitions", name)
    ensures CheckUse(env, ws, rule, r) == Err(DefinitionUseRequired)
  {
    var names := FindDefinitions(env, rule, r).1;
    if names != [] {
      assert names[0] in names && !MayUse(env, ws, "gatewaymodeldefinitions", Some(names[0]));
    }
  }

  /**
   * On a DELETE request it can be lost even for a rule that is not reference-optional, be it for update, as the
   * DELETE routes are, or for creation: the check by name reads the body, which names a usable definition; with
   * broad permission the body is left unread, and the query names another.
   */
  lemma BroadGrantCanRefuseDelete(a: Env, b: Env, ws: string, rule: Rule, r: Request, mine: string, other: string)
    requires GrantsGrow(a, b) && Guarded(rule, "gatewayendpoints")
    requires rule.policy.NoPolicy? && !rule.deny && rule.parsers != []
    requires !May(a, ws, rule, None) && May(b, ws, rule, None) && MayOnAll(a, ws, rule, Resolve(a.parsers, Load(r, false), rule.parsers))
    requires Clean(mine) && Clean(other) && a.definitionName(mine) == Some(mine) && a.definitionName(other) == Some(other)
    requires MayUse(a, ws, "gatewaymodeldefinitions", Some(mine)) && !MayUse(b, ws, "gatewaymodeldefinitions", Some(other))
    requires !MayUse(b, ws, "gatewaymodeldefinitions", None)
    requires r.verb == "DELETE" && r.body.None? && r.pathParams == map[] && r.query == map["model_definition_id" := Text(other)]
    requires r.loader == Some(Some(Object(map["model_definition_id" := Text(mine)])))
    ensures CheckRule(a, Some(ws), rule, r).Ok? && CheckRule(b, Some(ws), rule, r) == Err(DefinitionUseRequired)
  {
    var loaded := Load(r, false);
    NamedByDelete(a, r, other);
    NamedByDelete(a, loaded, mine);
    SameDependencies(a, b, r);
    UseOfOne(a, b, ws, rule, r, mine, other);
    NamedPasses(a, ws, rule, r);
    BroadReaches(b, ws, rule, r);
  }

  lemma UseOfOne(a: Env, b: Env, ws: string, rule: Rule, r: Request, mine: string, other: string)
    requires Guarded(rule, "gatewayendpoints")
    requires Definitions(b, r) == [other] && Definitions(a, Load(r, false)) == [mine]
    requires MayUse(a, ws, "gatewaymodeldefinitions", Some(mine)) && !MayUse(b, ws, "gatewaymodeldefinitions", Some(other))
    requires !MayUse(b, ws, "gatewaymodeldefinitions", None)
    ensures CheckUse(a, ws, rule, Load(r, false)).Ok? && CheckUse(b, ws, rule, r) == Err(DefinitionUseRequired)
  {
    assert other in Definitions(b, r);
  }

  lemma NamedPasses(env: Env, ws: string, rule: Rule, r: Request)
    requires Guarded(rule, "gatewayendpoints") && rule.policy.NoPolicy? && !rule.deny && rule.parsers != []
    requires !May(env, ws, rule, None) && MayOnAll(env, ws, rule, Resolve(env.parsers, Load(r, false), rule.parsers))
    ensures CheckRule(env, Some(ws), rule, r) == CheckUse(env, ws, rule, Load(r, false))
  {
    RbacByParts(env, ws, rule, r);
  }

  lemma BroadReaches(env: Env, ws: string, rule: Rule, r: Request)
    requires Guarded(rule, "gatewayendpoints") && rule.policy.NoPolicy? && !rule.deny
    requires May(env, ws, rule, None)
    ensures CheckRule(env, Some(ws), rule, r) == CheckUse(env, ws, rule, r)
  {
    RbacByParts(env, ws, rule, r);
  }
}
