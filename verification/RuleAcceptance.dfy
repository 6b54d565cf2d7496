/**
 * When a rule accepts a request and what request it passes on, when a whole run does, and what the run starts
 * from, each said in terms of the rule, the request and the access reviews.
 */
module RuleAcceptance {
  import opened Wrappers
  import opened Strings
  import opened Json
  import opened Requests
  import opened GetBody
  import opened ResourceNames
  import opened Authority
  import opened Gateway
  import opened Decision

  // ----- Permission for the whole type, or by name -----

  /** Access to the whole type of the rule is allowed. */
  predicate Broad(env: Env, ws: string, rule: Rule)
    requires rule.verb.Some? && rule.resource.Some?
  {
    env.allowed(Review(rule.resource.value, rule.verb.value, ws, rule.subresource, None))
  }

  /** With the body loaded, every parser of the rule gives values, some value is a name, and access to every name is allowed. */
  ghost predicate NamesAllowed(env: Env, ws: string, rule: Rule, r: Request)
    requires rule.verb.Some? && rule.resource.Some?
  {
    var loaded := Load(r, false);
    && (forall id :: id in rule.parsers ==> Finds(env.parsers, loaded, id))
    && (exists n :: GivenBySome(env.parsers, loaded, rule.parsers, n))
    && forall n :: GivenBySome(env.parsers, loaded, rule.parsers, n) ==>
         env.allowed(Review(rule.resource.value, rule.verb.value, ws, rule.subresource, Some(n)))
  }

  /** With the body loaded, the first parser without values reports a missing reference. */
  ghost predicate Lacks(env: Env, rule: Rule, r: Request) {
    exists k: nat :: LacksAt(env.parsers, Load(r, false), rule.parsers, k)
  }

  lemma MayIsAllowed(env: Env, ws: string, rule: Rule, r: Request)
    requires rule.verb.Some? && rule.resource.Some?
    ensures May(env, ws, rule, None) <==> Broad(env, ws, rule)
    ensures rule.parsers != [] && MayOnAll(env, ws, rule, Resolve(env.parsers, Load(r, false), rule.parsers)) <==> NamesAllowed(env, ws, rule, r)
    ensures ReferenceMissing(env, rule, r) <==> Lacks(env, rule, r)
  {
    ResolutionIsExact(env.parsers, Load(r, false), rule.parsers);
    MissingIff(env.parsers, Load(r, false), rule.parsers);
  }

  // ----- Budgets -----

  function Digit(c: char): int {
    c as int - '0' as int
  }

  /** What a string of digits is as a number. */
  function Numeral(s: string): int {
    if s == "" then 0 else 10 * Numeral(s[..|s| - 1]) + Digit(s[|s| - 1])
  }

  predicate Digits(s: string) {
    s != "" && forall i :: 0 <= i < |s| ==> '0' <= s[i] <= '9'
  }

  /** A number one, true, or text with a numeral for one or the word between white space. */
  ghost predicate SaysGlobal(v: Value) {
    || v == Number(1) || v == Bool(true)
    || exists t :: Says(v, t) && ((Digits(t) && Numeral(t) == 1) || IsWord(t))
  }

  /** In any case. */
  predicate IsWord(t: string) {
    |t| == 6 && forall i :: 0 <= i < 6 ==> t[i] == "GLOBAL"[i] || t[i] == "global"[i]
  }

  lemma {:induction false} ZeroIff(s: string)
    requires forall i :: 0 <= i < |s| ==> '0' <= s[i] <= '9'
    ensures Numeral(s) >= 0 && (Numeral(s) == 0 <==> forall i :: 0 <= i < |s| ==> s[i] == '0')
  {
    if s != "" {
      var front, last := s[..|s| - 1], s[|s| - 1];
      ZeroIff(front);
    }
  }

  lemma OneIff(s: string)
    ensures IsOne(s) <==> Digits(s) && Numeral(s) == 1
  {
    if s != "" {
      var front, last := s[..|s| - 1], s[|s| - 1];
      assert forall i :: 0 <= i < |front| ==> s[i] == front[i];
      if forall i :: 0 <= i < |front| ==> '0' <= front[i] <= '9' {
        ZeroIff(front);
      }
    }
  }

  lemma WordIff(s: string)
    ensures ReadsAs(s, "GLOBAL") <==> IsWord(s)
  {
    assert forall c: char, i :: 0 <= i < 6 ==> (UpperChar(c) == "GLOBAL"[i] <==> c == "GLOBAL"[i] || c == "global"[i]);
  }

  lemma GlobalIff(v: Value)
    ensures MeansGlobal(v) <==> SaysGlobal(v)
  {
    if v.Text? {
      StripTrims(v.s, Strip(v.s));
      OneIff(Strip(v.s));
      WordIff(Strip(v.s));
      forall t | Says(v, t) ensures t == Strip(v.s) {
        StripTrims(v.s, t);
      }
    }
  }

  predicate BudgetRule(rule: Rule) {
    rule.resource == Some("gatewaybudgets") && (rule.verb == Some("create") || rule.verb == Some("update"))
  }

  predicate GivesNoScalar(r: Request, key: string) {
    BodyHas(r, key) && (r.body.value.fields[key].List? || r.body.value.fields[key].Object?)
  }

  ghost predicate GivesGlobal(r: Request, key: string) {
    BodyHas(r, key) && SaysGlobal(r.body.value.fields[key])
  }

  /** An object body in which neither spelling of the scope is global, or no scalar. */
  ghost predicate StaysLocal(r: Request) {
    && r.body.Some? && r.body.value.Object?
    && !GivesNoScalar(r, "target_scope") && !GivesGlobal(r, "target_scope")
    && !GivesNoScalar(r, "targetScope") && !GivesGlobal(r, "targetScope")
  }

  /** A budget check passes exactly for a local scope, on the request with its body. */
  lemma BudgetIff(rule: Rule, r: Request)
    ensures CheckBudget(rule, r).Ok? <==> (BudgetRule(rule) ==> StaysLocal(Load(r, false)))
    ensures CheckBudget(rule, r).Ok? ==> CheckBudget(rule, r).value == if BudgetRule(rule) then Load(r, false) else r
    ensures BudgetRule(rule) ==>
              var loaded, result := Load(r, false), CheckBudget(rule, r);
              && (result == Err(BudgetBody) <==> !HasObjectBody(loaded))
              && (result == Err(BudgetType) <==> GivesNoScalar(loaded, "target_scope")
                                                 || (GivesNoScalar(loaded, "targetScope") && !GivesGlobal(loaded, "target_scope")))
              && (result.Err? ==> result.error in {BudgetBody, BudgetType, BudgetGlobal})
  {
    forall v ensures MeansGlobal(v) <==> SaysGlobal(v) {
      GlobalIff(v);
    }
  }

  // ----- One RBAC rule -----

  /** A GraphQL rule that filters in the response, but goes by name where a reference is present. */
  predicate NamedOrFiltered(rule: Rule) {
    rule.parsers != [] && rule.fallbackOnMissing && rule.policy.GraphQLFilter?
  }

  /** A listing of scorers by the selector of its body, which broad permission keeps. */
  predicate SelectsByBody(rule: Rule, r: Request) {
    rule.policy.ListScorers? && r.query == map[]
  }

  /** What the selector reads as. */
  function Selector(env: Env, rule: Rule, r: Request): (Request, bool) {
    Normalized(Load(r, true), env.fields(rule.policy), env.codec)
  }

  predicate SelectorIsUsable(env: Env, rule: Rule, r: Request) {
    var (selected, ok) := Selector(env, rule, r);
    ok && ("experiment_ids" in selected.query ==> selected.query["experiment_ids"] != List([]))
  }

  /** With broad permission: the request as it is, its body loaded where something needs it. */
  function BroadlyChecked(env: Env, rule: Rule, r: Request): Request {
    if SelectsByBody(rule, r) then Selector(env, rule, r).0
    else if BudgetRule(rule) || NamedOrFiltered(rule) then Load(r, false)
    else r
  }

  /** The filters that go by the message need its body, of a GET too. */
  predicate ReadsMessage(policy: Policy) {
    match policy
    case AuthorizedIds | ListScorers => true
    case Search(_, messaged) => messaged
    case _ => false
  }

  /** The filter narrows the request to this one, at once or with the body loaded. */
  predicate Narrows(env: Env, ws: string, policy: Policy, r: Request, r': Request) {
    var from := if ReadsMessage(policy) then Load(r, true) else r;
    var (first, applied) := Apply(env, ws, policy, from);
    if applied then r' == first else Apply(env, ws, policy, Load(first, false)) == (r', true)
  }

  /** Without broad permission: by name; or left to the response; or by the filter. */
  ghost predicate Checked(env: Env, ws: string, rule: Rule, r: Request, checked: Request)
    requires rule.verb.Some? && rule.resource.Some?
  {
    if NamesAllowed(env, ws, rule, r) then checked == Load(r, false)
    else if rule.policy.GraphQLFilter? then checked == Load(r, false) && (NamedOrFiltered(rule) ==> Lacks(env, rule, r))
    else Narrows(env, ws, rule.policy, if BudgetRule(rule) || rule.parsers != [] then Load(r, false) else r, checked)
  }

  /** The request passed on is what the dependency check makes of the one it is given; an exempt request goes on unchecked. */
  ghost predicate RbacAccepts(env: Env, ws: string, rule: Rule, r: Request, r': Request)
    requires rule.verb.Some?
  {
    && rule.resource.Some? && rule.resource.value != ""
    && (BudgetRule(rule) ==> StaysLocal(Load(r, false)))
    && if Broad(env, ws, rule) then
         && (SelectsByBody(rule, r) ==> SelectorIsUsable(env, rule, r))
         && CheckUse(env, ws, rule, BroadlyChecked(env, rule, r)) == Ok(r')
       else if rule.allowIfMissing && Lacks(env, rule, r) then r' == Load(r, false)
       else exists checked :: Checked(env, ws, rule, r, checked) && CheckUse(env, ws, rule, checked) == Ok(r')
  }

  lemma LoadsAgree(r: Request)
    ensures Load(Load(r, false), false) == Load(r, false)
    ensures r.query == map[] ==> Load(Load(r, false), true) == Load(r, true)
  {
  }

  lemma BroadRuleIff(env: Env, ws: string, rule: Rule, r: Request, r': Request)
    requires rule.verb.Some? && rule.resource.Some? && rule.resource.value != "" && Broad(env, ws, rule)
    ensures CheckRbac(env, ws, rule, r) == Ok(r') <==> RbacAccepts(env, ws, rule, r, r')
  {
    BudgetIff(rule, r);
    LoadsAgree(r);
  }

  lemma NarrowsIff(env: Env, ws: string, policy: Policy, r: Request, r': Request)
    ensures Attempt(env, ws, policy, r) == (r', true) <==> Narrows(env, ws, policy, r, r')
  {
  }

  lemma GraphQLAttempt(env: Env, ws: string, r: Request)
    ensures Attempt(env, ws, GraphQLFilter, r) == (Load(r, false), false)
  {
  }

  /** Past the budget and an exemption, a rule without broad permission. */
  lemma NarrowRuleIff(env: Env, ws: string, rule: Rule, r: Request, from: Request, checked: Request)
    requires rule.verb.Some? && rule.resource.Some? && !Broad(env, ws, rule) && !(rule.allowIfMissing && Lacks(env, rule, r))
    requires from == if BudgetRule(rule) then Load(r, false) else r
    ensures !ByName(env, ws, rule, from).exempt
    ensures ByFilter(env, ws, rule, ByName(env, ws, rule, from)) == (checked, true) <==> Checked(env, ws, rule, r, checked)
  {
    MayIsAllowed(env, ws, rule, r);
    LoadsAgree(r);
    var s := ByName(env, ws, rule, from);
    assert s.granted <==> NamesAllowed(env, ws, rule, r);
    GraphQLAttempt(env, ws, s.request);
    NarrowsIff(env, ws, rule.policy, s.request, checked);
  }

  /** An RBAC rule accepts a request, and passes this one on, exactly then. */
  lemma RbacAcceptsIff(env: Env, ws: string, rule: Rule, r: Request, r': Request)
    requires rule.verb.Some?
    ensures CheckRbac(env, ws, rule, r) == Ok(r') <==> RbacAccepts(env, ws, rule, r, r')
  {
    BudgetIff(rule, r);
    if CheckBudget(rule, r).Ok? && rule.resource.Some? && rule.resource.value != "" {
      if Broad(env, ws, rule) {
        BroadRuleIff(env, ws, rule, r, r');
      } else {
        UnbroadRuleIff(env, ws, rule, r, r');
      }
    }
  }

  lemma UnbroadRuleIff(env: Env, ws: string, rule: Rule, r: Request, r': Request)
    requires rule.verb.Some? && rule.resource.Some? && rule.resource.value != "" && !Broad(env, ws, rule) && CheckBudget(rule, r).Ok?
    ensures CheckRbac(env, ws, rule, r) == Ok(r') <==> RbacAccepts(env, ws, rule, r, r')
  {
    BudgetIff(rule, r);
    MayIsAllowed(env, ws, rule, r);
    LoadsAgree(r);
    var from := CheckBudget(rule, r).value;
    if !(rule.allowIfMissing && Lacks(env, rule, r)) {
      var (filtered, granted) := ByFilter(env, ws, rule, ByName(env, ws, rule, from));
      forall checked ensures (filtered, granted) == (checked, true) <==> Checked(env, ws, rule, r, checked) {
        NarrowRuleIff(env, ws, rule, r, from, checked);
      }
    }
  }

  // ----- One rule -----

  /** Reading some kind of resource of the workspace is allowed. */
  predicate SeesWorkspace(env: Env, ws: string) {
    exists kind | kind in {"experiments", "datasets", "mcpservers", "registeredmodels", "gatewaysecrets", "gatewayendpoints",
                           "gatewaymodeldefinitions", "gatewaybudgets", "gatewayguardrails", "skills"} ::
      env.allowed(Review(kind, "get", ws, None, None))
  }

  ghost predicate Accepts(env: Env, ws: Option<string>, rule: Rule, r: Request, r': Request) {
    && !rule.deny
    && (rule.requiresWorkspace || rule.verb.Some? ==> ws.Some?)
    && if rule.verb.Some? then RbacAccepts(env, ws.value, rule, r, r')
       else r' == r && (rule.workspaceFilter || (rule.workspaceAccess && ws.Some? && SeesWorkspace(env, ws.value)))
  }

  /** A rule accepts a request, and passes this one on, exactly then. */
  lemma RuleAcceptsIff(env: Env, ws: Option<string>, rule: Rule, r: Request, r': Request)
    ensures CheckRule(env, ws, rule, r) == Ok(r') <==> Accepts(env, ws, rule, r, r')
  {
    if ws.Some? {
      assert CanAccess(env, ws.value) <==> SeesWorkspace(env, ws.value);
      if rule.verb.Some? {
        RbacAcceptsIff(env, ws.value, rule, r, r');
      }
    }
  }

  /** Why a rule refuses, first reason first. */
  lemma RefusalIsExact(env: Env, ws: Option<string>, rule: Rule, r: Request)
    ensures rule.deny && rule.denyMessage.Some? ==> CheckRule(env, ws, rule, r) == Err(Denied(rule.denyMessage.value))
    ensures rule.deny && rule.denyMessage.None? ==> CheckRule(env, ws, rule, r) == Err(Misconfigured)
    ensures !rule.deny && ws.None? && (rule.requiresWorkspace || rule.verb.Some? || (rule.workspaceAccess && !rule.workspaceFilter)) ==>
              CheckRule(env, ws, rule, r) == Err(WorkspaceRequired)
    ensures !rule.deny && ws.Some? && rule.verb.Some? && !(BudgetRule(rule) && !StaysLocal(Load(r, false))) ==>
              RbacRefusal(env, ws.value, rule, r, CheckRule(env, ws, rule, r))
    ensures !rule.deny && rule.verb.None? && !rule.workspaceFilter && ws.Some? ==>
              CheckRule(env, ws, rule, r) == if !rule.workspaceAccess then Err(Misconfigured)
                                             else if SeesWorkspace(env, ws.value) then Ok(r) else Err(Forbidden)
    ensures !rule.deny && rule.verb.None? && !rule.workspaceFilter && !rule.workspaceAccess && (rule.requiresWorkspace ==> ws.Some?) ==>
              CheckRule(env, ws, rule, r) == Err(Misconfigured)
  {
    if ws.Some? {
      assert CanAccess(env, ws.value) <==> SeesWorkspace(env, ws.value);
      if !rule.deny && rule.verb.Some? && !(BudgetRule(rule) && !StaysLocal(Load(r, false))) {
        RbacRefusalIsExact(env, ws.value, rule, r);
      }
    }
  }

  /** Past the budget: without a resource; with an unusable selector; without a grant; or, with one, for want of use permission. */
  ghost predicate RbacRefusal(env: Env, ws: string, rule: Rule, r: Request, result: Result<Request, Refusal>)
    requires rule.verb.Some?
  {
    if rule.resource.None? || rule.resource.value == "" then result == Err(Misconfigured)
    else if Broad(env, ws, rule) then
      (if SelectsByBody(rule, r) && !SelectorIsUsable(env, rule, r) then result == Err(ScorerInput)
       else result == CheckUse(env, ws, rule, BroadlyChecked(env, rule, r)))
    else if rule.allowIfMissing && Lacks(env, rule, r) then result == Ok(Load(r, false))
    else if forall checked :: !Checked(env, ws, rule, r, checked) then result == Err(Forbidden)
    else forall checked :: Checked(env, ws, rule, r, checked) ==> result == CheckUse(env, ws, rule, checked)
  }

  lemma RbacRefusalIsExact(env: Env, ws: string, rule: Rule, r: Request)
    requires rule.verb.Some? && (BudgetRule(rule) ==> StaysLocal(Load(r, false)))
    ensures RbacRefusal(env, ws, rule, r, CheckRbac(env, ws, rule, r))
  {
    BudgetIff(rule, r);
    if rule.resource.Some? && rule.resource.value != "" {
      MayIsAllowed(env, ws, rule, r);
      LoadsAgree(r);
      if !Broad(env, ws, rule) && !(rule.allowIfMissing && Lacks(env, rule, r)) {
        UnbroadRefusalIsExact(env, ws, rule, r);
      }
    }
  }

  lemma UnbroadRefusalIsExact(env: Env, ws: string, rule: Rule, r: Request)
    requires rule.verb.Some? && rule.resource.Some? && rule.resource.value != "" && CheckBudget(rule, r).Ok?
    requires !Broad(env, ws, rule) && !(rule.allowIfMissing && Lacks(env, rule, r))
    ensures RbacRefusal(env, ws, rule, r, CheckRbac(env, ws, rule, r))
  {
    BudgetIff(rule, r);
    var from := CheckBudget(rule, r).value;
    var (filtered, granted) := ByFilter(env, ws, rule, ByName(env, ws, rule, from));
    NarrowRuleIff(env, ws, rule, r, from, filtered);
    forall checked ensures (filtered, granted) == (checked, true) <==> Checked(env, ws, rule, r, checked) {
      NarrowRuleIff(env, ws, rule, r, from, checked);
    }
  }

  // ----- All rules, in turn -----

  /** One request more than rules, and a step between neighbours. */
  ghost predicate Chain(rules: seq<Rule>, trace: seq<Request>, step: (Rule, Request, Request) -> bool) {
    |trace| == |rules| + 1 && forall i :: 0 <= i < |rules| ==> step(rules[i], trace[i], trace[i + 1])
  }

  lemma ChainExtends(rules: seq<Rule>, trace: seq<Request>, step: (Rule, Request, Request) -> bool, last: Rule, r': Request)
    requires Chain(rules, trace, step) && step(last, trace[|rules|], r')
    ensures Chain(rules + [last], trace + [r'], step)
  {
  }

  lemma ChainShortens(rules: seq<Rule>, trace: seq<Request>, step: (Rule, Request, Request) -> bool)
    requires Chain(rules, trace, step) && rules != []
    ensures Chain(rules[..|rules| - 1], trace[..|rules|], step)
    ensures step(rules[|rules| - 1], trace[|rules| - 1], trace[|rules|])
  {
  }

  /** Every rule accepts what the one before it passed on. */
  ghost predicate AllAccept(env: Env, ws: Option<string>, rules: seq<Rule>, trace: seq<Request>) {
    Chain(rules, trace, (rule, r, r') => Accepts(env, ws, rule, r, r'))
  }

  lemma {:induction false} AcceptedByAll(env: Env, ws: Option<string>, rules: seq<Rule>, r: Request) returns (trace: seq<Request>)
    requires CheckRules(env, ws, rules, r).Ok?
    ensures AllAccept(env, ws, rules, trace) && trace[0] == r && trace[|rules|] == CheckRules(env, ws, rules, r).value
  {
    if rules == [] {
      trace := [r];
    } else {
      var front, last := rules[..|rules| - 1], rules[|rules| - 1];
      LastIsChecked(env, ws, rules, r);
      var before := AcceptedByAll(env, ws, front, r);
      var r' := CheckRules(env, ws, rules, r).value;
      OneMoreAccepts(env, ws, front, before, last, r');
      trace := before + [r'];
      assert front + [last] == rules;
    }
  }

  lemma LastIsChecked(env: Env, ws: Option<string>, rules: seq<Rule>, r: Request)
    requires rules != [] && CheckRules(env, ws, rules, r).Ok?
    ensures var front := CheckRules(env, ws, rules[..|rules| - 1], r);
            front.Ok? && CheckRule(env, ws, rules[|rules| - 1], front.value) == CheckRules(env, ws, rules, r)
  {
  }

  lemma OneMoreAccepts(env: Env, ws: Option<string>, rules: seq<Rule>, trace: seq<Request>, last: Rule, r': Request)
    requires AllAccept(env, ws, rules, trace) && CheckRule(env, ws, last, trace[|rules|]) == Ok(r')
    ensures AllAccept(env, ws, rules + [last], trace + [r'])
  {
    RuleAcceptsIff(env, ws, last, trace[|rules|], r');
    ChainExtends(rules, trace, (rule, r, r') => Accepts(env, ws, rule, r, r'), last, r');
  }

  lemma {:induction false} AllAcceptThenOk(env: Env, ws: Option<string>, rules: seq<Rule>, trace: seq<Request>)
    requires AllAccept(env, ws, rules, trace)
    ensures CheckRules(env, ws, rules, trace[0]) == Ok(trace[|rules|])
  {
    if rules != [] {
      var n := |rules| - 1;
      ChainShortens(rules, trace, (rule, r, r') => Accepts(env, ws, rule, r, r'));
      AllAcceptThenOk(env, ws, rules[..n], trace[..n + 1]);
      RuleAcceptsIff(env, ws, rules[n], trace[n], trace[n + 1]);
    }
  }

  // ----- What a run starts from -----

  /** The first value of the query key is this text, not empty. */
  predicate FirstIs(r: Request, key: string, t: string) {
    && t != "" && key in r.query
    && (r.query[key] == Text(t) || (r.query[key].List? && r.query[key].items != [] && r.query[key].items[0] == Text(t)))
  }

  /** A GraphQL operation is in sight: in an object body, or in the query. */
  ghost predicate OperationInSight(env: Env, r: Request) {
    || (r.body.Some? && r.body.value.Object?)
    || (exists t :: FirstIs(r, "query", t) || FirstIs(r, "operationName", t))
    || exists t :: FirstIs(r, "variables", t) && env.codec.decode(t).Some? && env.codec.decode(t).value.Object?
  }

  lemma FirstValueIff(r: Request, key: string, t: string)
    ensures FirstValue(r.query, key) == Some(t) <==> FirstIs(r, key, t)
  {
  }

  lemma PayloadIff(env: Env, r: Request)
    ensures HasPayload(env, r) <==> OperationInSight(env, r)
  {
    forall key, t ensures FirstValue(r.query, key) == Some(t) <==> FirstIs(r, key, t) {
      FirstValueIff(r, key, t);
    }
    if FirstValue(r.query, "query").Some? {
      assert FirstIs(r, "query", FirstValue(r.query, "query").value);
    }
    if FirstValue(r.query, "operationName").Some? {
      assert FirstIs(r, "operationName", FirstValue(r.query, "operationName").value);
    }
    if FirstValue(r.query, "variables").Some? {
      assert FirstIs(r, "variables", FirstValue(r.query, "variables").value);
    }
  }

  /** The path ends in a GraphQL endpoint's. */
  ghost predicate ToGraphQL(path: string) {
    exists prefix :: path == prefix + "/graphql"
  }

  lemma EndsIff(path: string)
    ensures EndsWith(path, "/graphql") <==> ToGraphQL(path)
  {
    if EndsWith(path, "/graphql") {
      assert path == path[..|path| - 8] + "/graphql";
    }
  }

  /** The rules are looked up with the operation of a GraphQL request in sight, if its body can bring it there. */
  ghost predicate LookedUp(env: Env, r: Request, r': Request) {
    r' == if ToGraphQL(r.path) && !OperationInSight(env, r) then Load(r, false) else r
  }

  /** Some rule is about skill artifacts. */
  ghost predicate AboutSkills(rules: seq<Rule>) {
    exists rule :: rule in rules && rule.checkSkill
  }

  /** Which rules then apply: as found, or those of the artifact, its path taken from the body unless the request gives it. */
  ghost predicate Applying(cfg: Config, found: seq<Rule>, r: Request, rules: seq<Rule>, r': Request) {
    if AboutSkills(found) then
      && r' == (if "artifact_path" in r.pathParams || (r.verb == "GET" && r.query != map[]) then r else Load(r, true))
      && rules == cfg.skill(r', found)
    else r' == r && rules == found
  }

  /** The caller gives a workspace. */
  ghost predicate Names(given: Option<string>, name: string) {
    given.Some? && Trims(given.value, name)
  }

  /** The request is for a workspace: named in the path, or created under a name. */
  ghost predicate IsFor(r: Request, rule: Rule, name: string) {
    if "workspace_name" in r.pathParams && exists n :: Says(r.pathParams["workspace_name"], n) then Says(r.pathParams["workspace_name"], name)
    else rule.workspaceAccess && r.verb == "POST" && BodyHas(r, "name") && Says(r.body.value.fields["name"], name)
  }

  /** The given workspace; without one, the workspace it is for, which then is the request's; else none. */
  ghost predicate Settles(given: Option<string>, r: Request, rule: Rule, ws: Option<string>, r': Request) {
    if exists name :: Names(given, name) then ws.Some? && Names(given, ws.value) && r' == r
    else if exists name :: IsFor(r, rule, name) then ws.Some? && IsFor(r, rule, ws.value) && r' == r.(workspace := ws)
    else ws.None? && r' == r
  }

  ghost predicate AtOrBelow(path: string, base: string) {
    path == base || exists rest :: path == base + "/" + rest
  }

  ghost predicate OfWorkspaces(path: string) {
    AtOrBelow(path, "/api/3.0/mlflow/workspaces") || AtOrBelow(path, "/ajax-api/3.0/mlflow/workspaces")
  }

  lemma BelowIff(path: string, base: string)
    ensures path == base || base + "/" <= path <==> AtOrBelow(path, base)
  {
    if base + "/" <= path {
      assert path == base + "/" + path[|base| + 1..];
    }
  }

  lemma WorkspaceApiIff(path: string)
    ensures WorkspaceApi(path) <==> OfWorkspaces(path)
  {
    BelowIff(path, "/api/3.0/mlflow/workspaces");
    BelowIff(path, "/ajax-api/3.0/mlflow/workspaces");
    assert "/api/3.0/mlflow/workspaces" + "/" == "/api/3.0/mlflow/workspaces/";
    assert "/ajax-api/3.0/mlflow/workspaces" + "/" == "/ajax-api/3.0/mlflow/workspaces/";
  }

  /** The run starts from these rules, this request and this workspace. */
  ghost predicate Begins(env: Env, cfg: Config, r: Request, start: Start) {
    && !(!cfg.workspacesEnabled && OfWorkspaces(r.path))
    && exists looked, seen :: Found(env, cfg, r, looked, seen, start)
  }

  ghost predicate Found(env: Env, cfg: Config, r: Request, looked: Request, seen: Request, start: Start) {
    && LookedUp(env, r, looked) && cfg.find(looked).Some? && cfg.find(looked).value != []
    && Applying(cfg, cfg.find(looked).value, looked, start.rules, seen) && start.rules != []
    && Settles(r.workspace, seen, start.rules[0], start.workspace, start.request)
  }

  lemma GivenIff(r: Request, name: string)
    ensures GivenWorkspace(r) == Some(name) <==> Names(r.workspace, name)
  {
    if r.workspace.Some? {
      StripTrims(r.workspace.value, name);
    }
  }

  lemma ForIff(r: Request, rule: Rule, name: string)
    ensures FromRequest(r, rule) == Some(name) <==> IsFor(r, rule, name)
  {
    forall v, n ensures NormalizeText(v) == Some(n) <==> Says(v, n) {
      NormalizedIff(v, n);
    }
    if "workspace_name" in r.pathParams && NormalizeText(r.pathParams["workspace_name"]).Some? {
      assert Says(r.pathParams["workspace_name"], NormalizeText(r.pathParams["workspace_name"]).value);
    }
  }

  lemma SettlesIff(given: Request, r: Request, rule: Rule, ws: Option<string>, r': Request)
    ensures Settles(given.workspace, r, rule, ws, r') <==>
      && ws == (if GivenWorkspace(given).Some? then GivenWorkspace(given) else FromRequest(r, rule))
      && r' == if GivenWorkspace(given).None? && ws.Some? then r.(workspace := ws) else r
  {
    forall name ensures GivenWorkspace(given) == Some(name) <==> Names(given.workspace, name) {
      GivenIff(given, name);
    }
    forall name ensures FromRequest(r, rule) == Some(name) <==> IsFor(r, rule, name) {
      ForIff(r, rule, name);
    }
    if GivenWorkspace(given).Some? {
      assert Names(given.workspace, GivenWorkspace(given).value);
    }
    if FromRequest(r, rule).Some? {
      assert IsFor(r, rule, FromRequest(r, rule).value);
    }
  }

  lemma ApplyingIff(cfg: Config, found: seq<Rule>, r: Request, rules: seq<Rule>, r': Request)
    ensures Applying(cfg, found, r, rules, r') <==> r' == WithArtifact(found, r) && rules == RulesFor(cfg, found, r')
  {
    assert AboutSkills(found) <==> exists i :: 0 <= i < |found| && found[i].checkSkill;
  }

  /** A run starts exactly so; otherwise the endpoint is not found, its rules are none, or workspaces are disabled. */
  lemma StartIff(env: Env, cfg: Config, r: Request, start: Start)
    ensures Prepare(env, cfg, r) == Ok(start) <==> Begins(env, cfg, r, start)
  {
    PayloadIff(env, r);
    EndsIff(r.path);
    WorkspaceApiIff(r.path);
    var looked := WithPayload(env, r);
    if cfg.find(looked).Some? && cfg.find(looked).value != [] {
      var found := cfg.find(looked).value;
      var seen := WithArtifact(found, looked);
      forall rules, r' ensures Applying(cfg, found, looked, rules, r') <==> r' == seen && rules == RulesFor(cfg, found, seen) {
        ApplyingIff(cfg, found, looked, rules, r');
      }
      if start.rules != [] {
        SettlesIff(r, seen, start.rules[0], start.workspace, start.request);
      }
      assert Found(env, cfg, r, looked, seen, start) <==> Prepare(env, cfg.(workspacesEnabled := true), r) == Ok(start);
    }
  }

  // ----- The whole decision -----

  /** What the request finally accepted is: with its body, if some rule replaces the user of a run. */
  ghost predicate Ends(rules: seq<Rule>, r: Request, r': Request) {
    r' == if exists rule :: rule in rules && rule.overrideUser then Load(r, false) else r
  }

  /** Every rule accepts in turn, from the start to this end. */
  ghost predicate Leads(env: Env, start: Start, trace: seq<Request>, a: Accepted) {
    && AllAccept(env, start.workspace, start.rules, trace) && trace[0] == start.request
    && a.rules == start.rules && Ends(a.rules, trace[|a.rules|], a.request)
  }

  /** A request is accepted with these rules, and goes on as this one, exactly if a run starts with them, every rule accepts in turn, and it ends so. */
  lemma DecisionIff(env: Env, cfg: Config, r: Request, a: Accepted)
    ensures Decided(env, cfg, r) == Ok(a) <==>
      exists start, trace :: Begins(env, cfg, r, start) && Leads(env, start, trace, a)
  {
    forall start ensures Prepare(env, cfg, r) == Ok(start) <==> Begins(env, cfg, r, start) {
      StartIff(env, cfg, r, start);
    }
    if Decided(env, cfg, r) == Ok(a) {
      var start := Prepare(env, cfg, r).value;
      var trace := AcceptedByAll(env, start.workspace, start.rules, start.request);
      FinishedEnds(a.rules, trace[|a.rules|]);
      assert Leads(env, start, trace, a);
    }
    if start, trace :| Begins(env, cfg, r, start) && Leads(env, start, trace, a) {
      AllAcceptThenOk(env, start.workspace, start.rules, trace);
      FinishedEnds(a.rules, trace[|a.rules|]);
    }
  }

  lemma FinishedEnds(rules: seq<Rule>, r: Request)
    ensures forall r' :: Ends(rules, r, r') <==> r' == Finished(rules, r)
  {
    assert (exists rule :: rule in rules && rule.overrideUser) <==> exists i :: 0 <= i < |rules| && rules[i].overrideUser;
  }
}
