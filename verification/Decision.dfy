/** The decision loop: which requests are authorized, and as what request they go on (`_authorize_request_async`). */
module Decision {
  import opened Wrappers
  import opened Strings
  import opened Json
  import opened Requests
  import opened GetBody
  import opened Narrowing
  import opened ResourceNames
  import opened Authority
  import opened Gateway

  /** `find` gives the rules of a request, `skill` those that replace them for skill artifacts. */
  datatype Config = Config(workspacesEnabled: bool, find: Request -> Option<seq<Rule>>, skill: (Request, seq<Rule>) -> seq<Rule>)

  datatype Accepted = Accepted(request: Request, rules: seq<Rule>)

  // ----- Budgets -----

  function UpperChar(c: char): char {
    if 'a' <= c <= 'z' then 'A' + (c - 'a') else c
  }

  predicate ReadsAs(s: string, upper: string) {
    |s| == |upper| && forall i :: 0 <= i < |s| ==> UpperChar(s[i]) == upper[i]
  }

  /** A numeral for one, possibly with leading zeros. */
  predicate IsOne(s: string) {
    s != "" && s[|s| - 1] == '1' && forall i :: 0 <= i < |s| - 1 ==> s[i] == '0'
  }

  predicate MeansGlobal(v: Value) {
    match v
    case Text(s) => IsOne(Strip(s)) || ReadsAs(Strip(s), "GLOBAL")
    case Number(n) => n == 1
    case Bool(b) => b
    case _ => false
  }

  predicate ChecksBudget(rule: Rule) {
    rule.resource == Some("gatewaybudgets") && (rule.verb == Some("create") || rule.verb == Some("update"))
  }

  /** `_enforce_gateway_budget_scope`. A list or object as a scope is a type error. */
  function CheckBudget(rule: Rule, r: Request): Result<Request, Refusal> {
    if !ChecksBudget(rule) then Ok(r)
    else
      var loaded := Load(r, false);
      if !HasObjectBody(loaded) then Err(BudgetBody)
      else if BudgetScope(loaded, "target_scope").Some? then Err(BudgetScope(loaded, "target_scope").value)
      else if BudgetScope(loaded, "targetScope").Some? then Err(BudgetScope(loaded, "targetScope").value)
      else Ok(loaded)
  }

  function BudgetScope(r: Request, key: string): Option<Refusal> {
    if !BodyHas(r, key) then None
    else if BodyField(r, key).List? || BodyField(r, key).Object? then Some(BudgetType)
    else if MeansGlobal(BodyField(r, key)) then Some(BudgetGlobal)
    else None
  }

  // ----- One RBAC rule -----

  predicate May(env: Env, ws: string, rule: Rule, name: Option<string>)
    requires rule.verb.Some? && rule.resource.Some?
  {
    env.allowed(Review(rule.resource.value, rule.verb.value, ws, rule.subresource, name))
  }

  predicate MayOnAll(env: Env, ws: string, rule: Rule, res: Resolution)
    requires rule.verb.Some? && rule.resource.Some?
  {
    res.Names? && res.names != [] && forall n :: n in res.names ==> May(env, ws, rule, Some(n))
  }

  /** Named when a reference is present, a filtered GraphQL read when it is not. */
  predicate Hybrid(rule: Rule) {
    rule.parsers != [] && rule.fallbackOnMissing && rule.policy.GraphQLFilter?
  }

  predicate ReferenceMissing(env: Env, rule: Rule, r: Request) {
    Resolve(env.parsers, Load(r, false), rule.parsers).Missing?
  }

  /** With broad permission, a scorer listing keeps the selector of its GET body. */
  function KeepScorers(env: Env, rule: Rule, r: Request): Result<Request, Refusal> {
    if !rule.policy.ListScorers? || r.query != map[] then Ok(r)
    else
      var (r1, ok) := Normalized(Load(r, true), env.fields(rule.policy), env.codec);
      if !ok || ("experiment_ids" in r1.query && r1.query["experiment_ids"] == List([])) then Err(ScorerInput) else Ok(r1)
  }

  /** Where the checks by name leave a rule; `exempt` when a missing reference is enough. */
  datatype Standing = Standing(request: Request, granted: bool, missing: bool, exempt: bool)

  function ByName(env: Env, ws: string, rule: Rule, r: Request): Standing
    requires rule.verb.Some? && rule.resource.Some?
  {
    if May(env, ws, rule, None) then Standing(if Hybrid(rule) then Load(r, false) else r, true, false, false)
    else if rule.parsers == [] then Standing(r, false, false, false)
    else
      var res := Resolve(env.parsers, Load(r, false), rule.parsers);
      Standing(Load(r, false), MayOnAll(env, ws, rule, res), res.Missing?, res.Missing? && rule.allowIfMissing)
  }

  /** The filter is tried, and once more with the body loaded. */
  function Attempt(env: Env, ws: string, policy: Policy, r: Request): Outcome {
    var (first, applied) := Apply(env, ws, policy, if Messaged(policy) then Load(r, true) else r);
    if applied then (first, true) else Apply(env, ws, policy, Load(first, false))
  }

  function ByFilter(env: Env, ws: string, rule: Rule, s: Standing): Outcome {
    if s.granted || rule.policy.NoPolicy? || rule.policy.BroadOnly? then (s.request, s.granted)
    else
      var (r, applied) := Attempt(env, ws, rule.policy, s.request);
      (r, applied || (rule.policy.GraphQLFilter? && (!Hybrid(rule) || s.missing)))
  }

  function CheckRbac(env: Env, ws: string, rule: Rule, r: Request): Result<Request, Refusal>
    requires rule.verb.Some?
  {
    var budget := CheckBudget(rule, r);
    if budget.Err? then budget
    else if rule.resource.None? || rule.resource.value == "" then Err(Misconfigured)
    else
      var kept := if May(env, ws, rule, None) then KeepScorers(env, rule, budget.value) else budget;
      if kept.Err? then kept
      else
        var s := ByName(env, ws, rule, kept.value);
        if s.exempt then Ok(s.request)
        else
          var (filtered, granted) := ByFilter(env, ws, rule, s);
          if granted then CheckUse(env, ws, rule, filtered) else Err(Forbidden)
  }

  // ----- One rule -----

  /** `can_access_workspace`. */
  predicate CanAccess(env: Env, ws: string) {
    exists resource :: resource in WorkspaceResources() && env.allowed(Review(resource, "get", ws, None, None))
  }

  function WorkspaceResources(): seq<string> {
    ["experiments", "datasets", "mcpservers", "registeredmodels", "gatewaysecrets", "gatewayendpoints",
     "gatewaymodeldefinitions", "gatewaybudgets", "gatewayguardrails", "skills"]
  }

  function CheckRule(env: Env, ws: Option<string>, rule: Rule, r: Request): Result<Request, Refusal> {
    if rule.deny then Err(if rule.denyMessage.Some? then Denied(rule.denyMessage.value) else Misconfigured)
    else if rule.requiresWorkspace && ws.None? then Err(WorkspaceRequired)
    else if rule.verb.Some? then (if ws.None? then Err(WorkspaceRequired) else CheckRbac(env, ws.value, rule, r))
    else if rule.workspaceAccess && !rule.workspaceFilter then
      if ws.None? then Err(WorkspaceRequired) else if CanAccess(env, ws.value) then Ok(r) else Err(Forbidden)
    else if rule.workspaceFilter then Ok(r)
    else Err(Misconfigured)
  }

  // ----- The whole decision -----

  function CheckRules(env: Env, ws: Option<string>, rules: seq<Rule>, r: Request): Result<Request, Refusal> {
    if rules == [] then Ok(r)
    else
      var front := CheckRules(env, ws, rules[..|rules| - 1], r);
      if front.Err? then front else CheckRule(env, ws, rules[|rules| - 1], front.value)
  }

  predicate EndsWith(s: string, suffix: string) {
    |s| >= |suffix| && s[|s| - |suffix|..] == suffix
  }

  function FirstValue(query: map<string, Value>, key: string): Option<string> {
    if key !in query then None
    else
      var v := if query[key].List? && query[key].items != [] then query[key].items[0] else query[key];
      if v.Text? && v.s != "" then Some(v.s) else None
  }

  /** `_build_graphql_payload` gives something. */
  predicate HasPayload(env: Env, r: Request) {
    || HasObjectBody(r)
    || FirstValue(r.query, "query").Some? || FirstValue(r.query, "operationName").Some?
    || (FirstValue(r.query, "variables").Some?
        && var v := env.codec.decode(FirstValue(r.query, "variables").value); v.Some? && v.value.Object?)
  }

  function WithPayload(env: Env, r: Request): Request {
    if EndsWith(r.path, "/graphql") && !HasPayload(env, r) then Load(r, false) else r
  }

  function WithArtifact(rules: seq<Rule>, r: Request): Request {
    if (exists i :: 0 <= i < |rules| && rules[i].checkSkill) && "artifact_path" !in r.pathParams && !(r.verb == "GET" && r.query != map[])
    then Load(r, true) else r
  }

  function RulesFor(cfg: Config, rules: seq<Rule>, r: Request): seq<Rule> {
    if exists i :: 0 <= i < |rules| && rules[i].checkSkill then cfg.skill(r, rules) else rules
  }

  function GivenWorkspace(r: Request): Option<string> {
    if r.workspace.Some? && Strip(r.workspace.value) != "" then Some(Strip(r.workspace.value)) else None
  }

  /** `_extract_workspace_scope_from_request`. */
  function FromRequest(r: Request, rule: Rule): Option<string> {
    if "workspace_name" in r.pathParams && NormalizeText(r.pathParams["workspace_name"]).Some? then NormalizeText(r.pathParams["workspace_name"])
    else if rule.workspaceAccess && r.verb == "POST" && BodyHas(r, "name") then NormalizeText(BodyField(r, "name"))
    else None
  }

  predicate WorkspaceApi(path: string) {
    || path == "/api/3.0/mlflow/workspaces" || path == "/ajax-api/3.0/mlflow/workspaces"
    || "/api/3.0/mlflow/workspaces/" <= path || "/ajax-api/3.0/mlflow/workspaces/" <= path
  }

  /** What the loop starts from: the rules, the request and the workspace. */
  datatype Start = Start(rules: seq<Rule>, request: Request, workspace: Option<string>)

  /** An empty list of skill rules would be an index error. */
  function Prepare(env: Env, cfg: Config, r: Request): Result<Start, Refusal> {
    var r1 := WithPayload(env, r);
    var found := cfg.find(r1);
    if found.None? || found.value == [] then Err(NotFound)
    else
      var r2 := WithArtifact(found.value, r1);
      var rules := RulesFor(cfg, found.value, r2);
      if rules == [] then Err(Misconfigured)
      else
        var ws := if GivenWorkspace(r).Some? then GivenWorkspace(r) else FromRequest(r2, rules[0]);
        var r3 := if GivenWorkspace(r).None? && ws.Some? then r2.(workspace := ws) else r2;
        if !cfg.workspacesEnabled && WorkspaceApi(r.path) then Err(ApisDisabled) else Ok(Start(rules, r3, ws))
  }

  function Finished(rules: seq<Rule>, r: Request): Request {
    if exists i :: 0 <= i < |rules| && rules[i].overrideUser then Load(r, false) else r
  }

  function Decided(env: Env, cfg: Config, r: Request): Result<Accepted, Refusal> {
    var start := Prepare(env, cfg, r);
    if start.Err? then Err(start.error)
    else
      var end := CheckRules(env, start.value.workspace, start.value.rules, start.value.request);
      if end.Err? then Err(end.error) else Ok(Accepted(Finished(start.value.rules, end.value), start.value.rules))
  }

  /** `_authorize_request_async`, after the caller is identified. */
  method Authorize(env: Env, cfg: Config, r: Request) returns (result: Result<Accepted, Refusal>)
    ensures result == Decided(env, cfg, r)
  {
    var start := Prepare(env, cfg, r);
    if start.Err? {
      return Err(start.error);
    }
    var Start(rules, updated, ws) := start.value;
    for i := 0 to |rules|
      invariant CheckRules(env, ws, rules[..i], start.value.request) == Ok(updated)
    {
      assert rules[..i + 1][..i] == rules[..i];
      var step := AuthorizeRule(env, ws, rules[i], updated);
      if step.Err? {
        FirstRefusalStands(env, ws, rules, i + 1, start.value.request);
        return Err(step.error);
      }
      updated := step.value;
    }
    assert rules[..|rules|] == rules;
    if exists i :: 0 <= i < |rules| && rules[i].overrideUser {
      updated := Load(updated, false);
    }
    return Ok(Accepted(updated, rules));
  }

  lemma {:induction false} FirstRefusalStands(env: Env, ws: Option<string>, rules: seq<Rule>, n: nat, r: Request)
    requires n <= |rules| && CheckRules(env, ws, rules[..n], r).Err?
    ensures CheckRules(env, ws, rules, r) == CheckRules(env, ws, rules[..n], r)
    decreases |rules|
  {
    if n == |rules| {
      assert rules[..n] == rules;
    } else {
      var front := rules[..|rules| - 1];
      assert front[..n] == rules[..n];
      FirstRefusalStands(env, ws, front, n, r);
    }
  }

  /** The body of the loop, with its reassigned request and flags. */
  method AuthorizeRule(env: Env, ws: Option<string>, rule: Rule, r: Request) returns (result: Result<Request, Refusal>)
    ensures result == CheckRule(env, ws, rule, r)
  {
    if rule.deny {
      return Err(if rule.denyMessage.Some? then Denied(rule.denyMessage.value) else Misconfigured);
    }
    if rule.requiresWorkspace && ws.None? {
      return Err(WorkspaceRequired);
    }
    if rule.verb.Some? {
      if ws.None? {
        return Err(WorkspaceRequired);
      }
      result := AuthorizeRbac(env, ws.value, rule, r);
    } else if rule.workspaceAccess && !rule.workspaceFilter {
      if ws.None? {
        return Err(WorkspaceRequired);
      }
      return if CanAccess(env, ws.value) then Ok(r) else Err(Forbidden);
    } else if rule.workspaceFilter {
      return Ok(r);
    } else {
      return Err(Misconfigured);
    }
  }

  method AuthorizeRbac(env: Env, ws: string, rule: Rule, r: Request) returns (result: Result<Request, Refusal>)
    requires rule.verb.Some?
    ensures result == CheckRbac(env, ws, rule, r)
  {
    var budget := CheckBudget(rule, r);
    if budget.Err? {
      return budget;
    }
    if rule.resource.None? || rule.resource.value == "" {
      return Err(Misconfigured);
    }
    var updated := budget.value;
    var granted := May(env, ws, rule, None);
    var broad, missing := granted, false;
    if granted {
      var kept := KeepScorers(env, rule, updated);
      if kept.Err? {
        return kept;
      }
      updated := kept.value;
    }
    if !granted && rule.parsers != [] {
      updated := Load(updated, false);
      var res := Resolve(env.parsers, updated, rule.parsers);
      missing := res.Missing?;
      if missing && rule.allowIfMissing {
        return Ok(updated);
      }
      granted := MayOnAll(env, ws, rule, res);
    }
    if broad && Hybrid(rule) {
      updated := Load(updated, false);
    }
    if !granted && !rule.policy.NoPolicy? && !rule.policy.BroadOnly? {
      var applied;
      updated, applied := AttemptFilter(env, ws, rule.policy, updated);
      if applied {
        granted := true;
      } else if rule.policy.GraphQLFilter? && (!Hybrid(rule) || missing) {
        granted := true;
      }
    }
    if !granted {
      return Err(Forbidden);
    }
    result := EnforceUse(env, ws, rule, updated);
  }

  method AttemptFilter(env: Env, ws: string, policy: Policy, r: Request) returns (updated: Request, applied: bool)
    ensures (updated, applied) == Attempt(env, ws, policy, r)
  {
    updated := if Messaged(policy) then Load(r, true) else r;
    var outcome := Apply(env, ws, policy, updated);
    updated, applied := outcome.0, outcome.1;
    if !applied {
      outcome := Apply(env, ws, policy, Load(updated, false));
      updated, applied := outcome.0, outcome.1;
    }
  }
}
