/**
 * Gateway mutations also need `use` permission on what they refer to: endpoints on model definitions, model
 * definitions on secrets (`_enforce_gateway_dependency_permissions`).
 */
module Gateway {
  import opened Wrappers
  import opened Json
  import opened Requests
  import opened Collections
  import opened Authority

  datatype Rule = Rule(
    verb: Option<string>,
    resource: Option<string>,
    subresource: Option<string>,
    parsers: seq<string>,
    policy: Policy,
    overrideUser: bool,
    workspaceFilter: bool,
    requiresWorkspace: bool,
    deny: bool,
    workspaceAccess: bool,
    denyMessage: Option<string>,
    allowIfMissing: bool,
    fallbackOnMissing: bool,
    skipGateway: bool,
    checkSkill: bool)

  datatype Refusal =
    | Denied(message: string) | Misconfigured | WorkspaceRequired | Forbidden
    | DefinitionUseRequired | SecretUseRequired
    | BudgetBody | BudgetGlobal | BudgetType | ScorerInput | NotFound | ApisDisabled

  // ----- Which dependencies a request names -----

  function ValuesAt(fields: map<string, Value>, key: string): seq<string> {
    if key in fields then NormalizeValues(fields[key]) else []
  }

  function BodyFields(r: Request): map<string, Value> {
    if HasObjectBody(r) then r.body.value.fields else map[]
  }

  /** `_get_request_param_values`; other methods are an error. */
  function ParamValues(r: Request, key: string): Option<seq<string>> {
    var path := ValuesAt(r.pathParams, key);
    if r.verb == "GET" then Some(ValuesAt(r.query, key) + path)
    else if r.verb == "POST" || r.verb == "PATCH" || r.verb == "PUT" then Some(ValuesAt(BodyFields(r), key) + path)
    else if r.verb == "DELETE" then Some((if HasObjectBody(r) then ValuesAt(BodyFields(r), key) else ValuesAt(r.query, key)) + path)
    else None
  }

  function ConfigIds(v: Value): seq<string> {
    if v.Object? then ValuesAt(v.fields, "model_definition_id") else []
  }

  function EachConfig(items: seq<Value>): seq<string> {
    if items == [] then [] else EachConfig(items[..|items| - 1]) + ConfigIds(items[|items| - 1])
  }

  /** Ids nested in `model_config` and `model_configs`. */
  function NestedIds(body: map<string, Value>): seq<string> {
    (if "model_config" in body then ConfigIds(body["model_config"]) else [])
    + (if "model_configs" in body && body["model_configs"].List? then EachConfig(body["model_configs"].items) else [])
  }

  function Looked(ids: seq<string>, lookup: string -> Option<string>): (r: Option<seq<string>>)
    ensures r.Some? <==> forall id :: id in ids ==> lookup(id).Some?
    ensures r.Some? ==> forall n :: n in r.value <==> exists id :: id in ids && lookup(id) == Some(n)
  {
    if ids == [] then Some([])
    else
      var front, last := Looked(ids[..|ids| - 1], lookup), lookup(ids[|ids| - 1]);
      if front.Some? && last.Some? then Some(front.value + [last.value]) else None
  }

  /** The names of the ids a request gives; none when one does not resolve. */
  function NamesFor(ids: Option<seq<string>>, lookup: string -> Option<string>): seq<string> {
    if ids.None? then []
    else
      var names := Looked(Dedupe(ids.value), lookup);
      if names.Some? then names.value else []
  }

  function DefinitionIds(r: Request): Option<seq<string>> {
    var direct := ParamValues(r, "model_definition_id");
    if direct.None? then None else Some(direct.value + NestedIds(BodyFields(r)))
  }

  function Definitions(env: Env, r: Request): seq<string> {
    NamesFor(DefinitionIds(r), env.definitionName)
  }

  function Secrets(env: Env, r: Request): seq<string> {
    NamesFor(ParamValues(r, "secret_id"), env.secretName)
  }

  function FirstText(fields: map<string, Value>, key: string, other: string): Option<string> {
    if key in fields && NormalizeText(fields[key]).Some? then NormalizeText(fields[key])
    else if other in fields then NormalizeText(fields[other])
    else None
  }

  /** `_get_request_mapping_value`: the body first, then the path parameters. */
  function MappingValue(r: Request, key: string, other: string): Option<string> {
    var inBody := FirstText(BodyFields(r), key, other);
    if inBody.Some? then inBody else FirstText(r.pathParams, key, other)
  }

  function StoredDefinitions(env: Env, r: Request): seq<string> {
    var id := MappingValue(r, "endpoint_id", "endpointId");
    if id.None? then [] else Dedupe(NormalizeAll(env.storedDefinitions(id.value)))
  }

  function StoredSecrets(env: Env, r: Request): seq<string> {
    var id := MappingValue(r, "model_definition_id", "modelDefinitionId");
    if id.None? then []
    else
      var name := NormalizeText(env.storedSecret(id.value));
      if name.Some? then [name.value] else []
  }

  // ----- The check -----

  predicate Mutates(rule: Rule, resource: string) {
    rule.resource == Some(resource) && rule.subresource != Some("use") && (rule.verb == Some("create") || rule.verb == Some("update"))
  }

  predicate MayUse(env: Env, ws: string, resource: string, name: Option<string>) {
    env.allowed(Review(resource, "create", ws, Some("use"), name))
  }

  predicate MayUseAll(env: Env, ws: string, resource: string, names: seq<string>) {
    names != [] && forall n :: n in names ==> MayUse(env, ws, resource, Some(n))
  }

  /** The request after looking for dependencies, which may load the body, and the names found. */
  function FindDefinitions(env: Env, rule: Rule, r: Request): (Request, seq<string>) {
    var first := Definitions(env, r);
    if first != [] then (r, first)
    else
      var loaded := Load(r, false);
      var second := Definitions(env, loaded);
      if second == [] && rule.verb == Some("update") && r.path == "/api/2.0/mlflow/gateway/endpoints/update" then
        (loaded, StoredDefinitions(env, loaded))
      else (loaded, second)
  }

  function FindSecrets(env: Env, rule: Rule, r: Request): (Request, seq<string>) {
    var first := Secrets(env, r);
    if first != [] then (r, first)
    else
      var loaded := Load(r, false);
      var second := Secrets(env, loaded);
      if second == [] && rule.verb == Some("update") then (loaded, StoredSecrets(env, loaded)) else (loaded, second)
  }

  function EndpointUse(env: Env, ws: string, rule: Rule, r: Request): Result<Request, Refusal> {
    var (found, names) := FindDefinitions(env, rule, r);
    if rule.verb == Some("update") && names == [] then Ok(found)
    else if MayUse(env, ws, "gatewaymodeldefinitions", None) || MayUseAll(env, ws, "gatewaymodeldefinitions", names) then Ok(found)
    else Err(DefinitionUseRequired)
  }

  function DefinitionUse(env: Env, ws: string, rule: Rule, r: Request): Result<Request, Refusal> {
    if MayUse(env, ws, "gatewaysecrets", None) then Ok(r)
    else
      var (found, names) := FindSecrets(env, rule, r);
      if MayUseAll(env, ws, "gatewaysecrets", names) then Ok(found) else Err(SecretUseRequired)
  }

  function CheckUse(env: Env, ws: string, rule: Rule, r: Request): Result<Request, Refusal> {
    if rule.skipGateway then Ok(r)
    else if Mutates(rule, "gatewayendpoints") then EndpointUse(env, ws, rule, r)
    else if Mutates(rule, "gatewaymodeldefinitions") then DefinitionUse(env, ws, rule, r)
    else Ok(r)
  }

  /** `_enforce_gateway_dependency_permissions`, step by step. */
  method EnforceUse(env: Env, ws: string, rule: Rule, r: Request) returns (result: Result<Request, Refusal>)
    ensures result == CheckUse(env, ws, rule, r)
  {
    if rule.skipGateway {
      return Ok(r);
    }
    var updated := r;
    if Mutates(rule, "gatewayendpoints") {
      var names := Definitions(env, updated);
      if names == [] {
        updated := Load(updated, false);
        names := Definitions(env, updated);
      }
      if names == [] && rule.verb == Some("update") && updated.path == "/api/2.0/mlflow/gateway/endpoints/update" {
        names := StoredDefinitions(env, updated);
      }
      var requiresUse := rule.verb == Some("create") || names != [];
      if !requiresUse && rule.verb == Some("update") {
        return Ok(updated);
      }
      if MayUse(env, ws, "gatewaymodeldefinitions", None) {
        return Ok(updated);
      }
      if names != [] && MayUseAll(env, ws, "gatewaymodeldefinitions", names) {
        return Ok(updated);
      }
      return Err(DefinitionUseRequired);
    }
    if Mutates(rule, "gatewaymodeldefinitions") {
      if MayUse(env, ws, "gatewaysecrets", None) {
        return Ok(updated);
      }
      var names := Secrets(env, updated);
      if names == [] {
        updated := Load(updated, false);
        names := Secrets(env, updated);
      }
      if names == [] && rule.verb == Some("update") {
        names := StoredSecrets(env, updated);
      }
      if names != [] && MayUseAll(env, ws, "gatewaysecrets", names) {
        return Ok(updated);
      }
      return Err(SecretUseRequired);
    }
    return Ok(updated);
  }

  // ----- What passing means -----

  predicate Guarded(rule: Rule, resource: string) {
    !rule.skipGateway && Mutates(rule, resource)
  }

  /** What the check finds for an endpoint mutation: the definitions in sight, or for a full update without any, those stored. */
  function FoundDefinitions(env: Env, rule: Rule, r: Request): seq<string> {
    var named := Definitions(env, r);
    if named == [] && rule.verb == Some("update") && r.path == "/api/2.0/mlflow/gateway/endpoints/update" then StoredDefinitions(env, r) else named
  }

  /** What it finds for a definition mutation: the secrets in sight, or for an update without any, the one stored. */
  function FoundSecrets(env: Env, rule: Rule, r: Request): seq<string> {
    var named := Secrets(env, r);
    if named == [] && rule.verb == Some("update") then StoredSecrets(env, r) else named
  }

  /** Broad use, or use of each of at least one dependency found; an endpoint update may have none. */
  ghost predicate UseHolds(env: Env, ws: string, rule: Rule, r: Request) {
    && (Guarded(rule, "gatewayendpoints") ==>
          var names := FoundDefinitions(env, rule, r);
          || MayUse(env, ws, "gatewaymodeldefinitions", None)
          || MayUseAll(env, ws, "gatewaymodeldefinitions", names)
          || (rule.verb == Some("update") && names == []))
    && (Guarded(rule, "gatewaymodeldefinitions") ==>
          MayUse(env, ws, "gatewaysecrets", None) || MayUseAll(env, ws, "gatewaysecrets", FoundSecrets(env, rule, r)))
  }

  /** The check does not come to read the body: a GET goes by its query, and dependencies found outside the body are enough. */
  predicate LeavesBodyUnread(env: Env, rule: Rule, r: Request) {
    && Unread(r)
    && (|| (r.verb == "GET" && r.query != map[])
        || (Guarded(rule, "gatewayendpoints") && Definitions(env, r) != [])
        || (Guarded(rule, "gatewaymodeldefinitions") && Secrets(env, r) != []))
  }

  /** The part of the request the check reads. */
  function ReadPart(env: Env, rule: Rule, r: Request): Request {
    if LeavesBodyUnread(env, rule, r) then r else Whole(r)
  }

  /** What the check amounts to, which need not be about all that the request depends on. */
  ghost predicate SeenUseHolds(env: Env, ws: string, rule: Rule, r: Request) {
    UseHolds(env, ws, rule, ReadPart(env, rule, r))
  }

  lemma LoadedIsWhole(r: Request)
    ensures r.verb != "GET" || r.query == map[] ==> Load(r, false) == Whole(r)
    ensures r.verb == "GET" && r.query != map[] ==> Load(r, false) == r
    ensures !Unread(r) ==> Load(r, false) == r && Whole(r) == r
  {
  }

  /** The check passes exactly when use is granted for what it finds in the part it reads. */
  lemma UseIffSeen(env: Env, ws: string, rule: Rule, r: Request)
    ensures CheckUse(env, ws, rule, r).Ok? <==> SeenUseHolds(env, ws, rule, r)
  {
    LoadedIsWhole(r);
    if Guarded(rule, "gatewayendpoints") {
      EndpointUseIff(env, ws, rule, r);
    } else if Guarded(rule, "gatewaymodeldefinitions") {
      DefinitionUseIff(env, ws, rule, r);
    }
  }

  lemma EndpointUseIff(env: Env, ws: string, rule: Rule, r: Request)
    requires Guarded(rule, "gatewayendpoints")
    ensures EndpointUse(env, ws, rule, r).Ok? <==> SeenUseHolds(env, ws, rule, r)
  {
    LoadedIsWhole(r);
    assert FindDefinitions(env, rule, r).1 == FoundDefinitions(env, rule, ReadPart(env, rule, r));
  }

  lemma DefinitionUseIff(env: Env, ws: string, rule: Rule, r: Request)
    requires Guarded(rule, "gatewaymodeldefinitions")
    ensures DefinitionUse(env, ws, rule, r).Ok? <==> SeenUseHolds(env, ws, rule, r)
  {
    LoadedIsWhole(r);
    assert FindSecrets(env, rule, r).1 == FoundSecrets(env, rule, ReadPart(env, rule, r));
  }

  /** The request goes on as it was, or loaded. */
  lemma UseOnlyLoads(env: Env, ws: string, rule: Rule, r: Request)
    requires CheckUse(env, ws, rule, r).Ok?
    ensures CheckUse(env, ws, rule, r).value == r || CheckUse(env, ws, rule, r).value == Load(r, false)
  {
  }

  lemma HeldUnder(fields: map<string, Value>, key: string, id: string)
    requires fields == map[key := Text(id)] && Clean(id)
    ensures ValuesAt(fields, key) == [id]
  {
  }

  lemma NoNestedIds(body: map<string, Value>)
    requires forall k :: k in body ==> k == "model_definition_id"
    ensures NestedIds(body) == []
  {
    assert |"model_config"| == 12 && |"model_configs"| == 13 && |"model_definition_id"| == 19;
  }

  lemma OneName(a: string, lookup: string -> Option<string>)
    requires lookup(a) == Some(a)
    ensures NamesFor(Some([a]), lookup) == [a]
  {
    assert [a][..0] == [];
    assert Dedupe([a]) == [a];
    assert Looked([a], lookup) == Some([a]);
  }

  lemma NamedByDelete(env: Env, r: Request, id: string)
    requires r.verb == "DELETE" && r.pathParams == map[] && Clean(id) && env.definitionName(id) == Some(id)
    requires if HasObjectBody(r) then BodyFields(r) == map["model_definition_id" := Text(id)]
             else r.query == map["model_definition_id" := Text(id)]
    ensures Definitions(env, r) == [id]
  {
    HeldUnder(if HasObjectBody(r) then BodyFields(r) else r.query, "model_definition_id", id);
    NoNestedIds(BodyFields(r));
    assert [id] + [] == [id];
    assert DefinitionIds(r) == Some([id]);
    OneName(id, env.definitionName);
  }

  // ----- Larger grants -----

  /** Every id resolves. */
  ghost predicate TotalGateway(env: Env) {
    (forall id :: env.definitionName(id).Some?) && (forall id :: env.secretName(id).Some?)
  }

  lemma NamesGrow(small: Option<seq<string>>, large: Option<seq<string>>, lookup: string -> Option<string>)
    requires forall id :: lookup(id).Some?
    requires small.Some? ==> large.Some? && forall id :: id in small.value ==> id in large.value
    ensures forall n :: n in NamesFor(small, lookup) ==> n in NamesFor(large, lookup)
  {
  }

  /** Loading a body only adds to the dependencies a request names. */
  lemma LoadingAddsIds(r: Request, key: string)
    requires r.verb != "DELETE"
    ensures ParamValues(r, key).Some? ==>
      var loaded := ParamValues(Load(r, false), key);
      loaded.Some? && forall id :: id in ParamValues(r, key).value ==> id in loaded.value
  {
    var l := Load(r, false);
    if l != r {
      assert BodyFields(r) == map[];
    }
  }

  lemma LoadingAddsDefinitions(env: Env, r: Request)
    requires TotalGateway(env) && r.verb != "DELETE"
    ensures forall n :: n in Definitions(env, r) ==> n in Definitions(env, Load(r, false))
    ensures forall n :: n in Secrets(env, r) ==> n in Secrets(env, Load(r, false))
  {
    LoadingAddsIds(r, "model_definition_id");
    LoadingAddsIds(r, "secret_id");
    var l := Load(r, false);
    if l != r {
      assert NestedIds(BodyFields(r)) == [];
    }
    NamesGrow(DefinitionIds(r), DefinitionIds(l), env.definitionName);
    NamesGrow(ParamValues(r, "secret_id"), ParamValues(l, "secret_id"), env.secretName);
  }

  lemma LoadTwice(r: Request)
    ensures Load(Load(r, false), false) == Load(r, false)
  {
  }

  lemma FewerNamesSuffice(env: Env, ws: string, resource: string, small: seq<string>, large: seq<string>)
    requires MayUseAll(env, ws, resource, large) && small != [] && forall n :: n in small ==> n in large
    ensures MayUseAll(env, ws, resource, small)
  {
  }

  lemma EndpointUseBefore(env: Env, ws: string, rule: Rule, r: Request)
    requires TotalGateway(env) && r.verb != "DELETE" && EndpointUse(env, ws, rule, Load(r, false)).Ok?
    ensures EndpointUse(env, ws, rule, r).Ok?
  {
    var l := Load(r, false);
    LoadTwice(r);
    LoadingAddsDefinitions(env, r);
    if Definitions(env, r) != [] {
      assert Definitions(env, r)[0] in Definitions(env, l);
      if MayUseAll(env, ws, "gatewaymodeldefinitions", Definitions(env, l)) {
        FewerNamesSuffice(env, ws, "gatewaymodeldefinitions", Definitions(env, r), Definitions(env, l));
      }
    }
  }

  lemma DefinitionUseBefore(env: Env, ws: string, rule: Rule, r: Request)
    requires TotalGateway(env) && r.verb != "DELETE" && DefinitionUse(env, ws, rule, Load(r, false)).Ok?
    ensures DefinitionUse(env, ws, rule, r).Ok?
  {
    var l := Load(r, false);
    LoadTwice(r);
    LoadingAddsDefinitions(env, r);
    if Secrets(env, r) != [] {
      assert Secrets(env, r)[0] in Secrets(env, l);
      if MayUseAll(env, ws, "gatewaysecrets", Secrets(env, l)) {
        FewerNamesSuffice(env, ws, "gatewaysecrets", Secrets(env, r), Secrets(env, l));
      }
    }
  }

  /** What passes with the body loaded passes without. */
  lemma UseBeforeLoading(env: Env, ws: string, rule: Rule, r: Request)
    requires TotalGateway(env) && r.verb != "DELETE" && CheckUse(env, ws, rule, Load(r, false)).Ok?
    ensures CheckUse(env, ws, rule, r).Ok?
  {
    if !rule.skipGateway && Mutates(rule, "gatewayendpoints") {
      EndpointUseBefore(env, ws, rule, r);
    } else if !rule.skipGateway && Mutates(rule, "gatewaymodeldefinitions") {
      DefinitionUseBefore(env, ws, rule, r);
    }
  }

  lemma MoreUse(a: Env, b: Env, ws: string, resource: string)
    requires GrantsGrow(a, b)
    ensures forall n :: MayUse(a, ws, resource, n) ==> MayUse(b, ws, resource, n)
    ensures forall names :: MayUseAll(a, ws, resource, names) ==> MayUseAll(b, ws, resource, names)
  {
  }

  lemma SameFound(a: Env, b: Env, rule: Rule, r: Request)
    requires GrantsGrow(a, b)
    ensures FindDefinitions(b, rule, r) == FindDefinitions(a, rule, r) && FindSecrets(b, rule, r) == FindSecrets(a, rule, r)
  {
    SameDependencies(a, b, r);
    SameDependencies(a, b, Load(r, false));
  }

  lemma SameDependencies(a: Env, b: Env, r: Request)
    requires GrantsGrow(a, b)
    ensures Definitions(b, r) == Definitions(a, r) && Secrets(b, r) == Secrets(a, r)
    ensures StoredDefinitions(b, r) == StoredDefinitions(a, r) && StoredSecrets(b, r) == StoredSecrets(a, r)
  {
  }

  lemma EndpointUseGrows(a: Env, b: Env, ws: string, rule: Rule, r: Request)
    requires GrantsGrow(a, b) && EndpointUse(a, ws, rule, r).Ok?
    ensures EndpointUse(b, ws, rule, r).Ok?
  {
    MoreUse(a, b, ws, "gatewaymodeldefinitions");
    SameFound(a, b, rule, r);
  }

  lemma DefinitionUseGrows(a: Env, b: Env, ws: string, rule: Rule, r: Request)
    requires GrantsGrow(a, b) && DefinitionUse(a, ws, rule, r).Ok?
    ensures DefinitionUse(b, ws, rule, r).Ok?
  {
    MoreUse(a, b, ws, "gatewaysecrets");
    SameFound(a, b, rule, r);
  }

  /** Larger grants keep the check passing. */
  lemma UseGrows(a: Env, b: Env, ws: string, rule: Rule, r: Request)
    requires GrantsGrow(a, b) && CheckUse(a, ws, rule, r).Ok?
    ensures CheckUse(b, ws, rule, r).Ok?
  {
    if !rule.skipGateway && Mutates(rule, "gatewayendpoints") {
      EndpointUseGrows(a, b, ws, rule, r);
    } else if !rule.skipGateway && Mutates(rule, "gatewaymodeldefinitions") {
      DefinitionUseGrows(a, b, ws, rule, r);
    }
  }
}
