/**
 * When the check for `use` permission passes, said from the request: the ids it gives plainly, what is stored
 * for the endpoint or definition it refers to, and the access reviews.
 */
module UseChecks {
  import opened Wrappers
  import opened Json
  import opened Requests
  import opened Collections
  import opened Authority
  import opened Gateway

  // ----- Ids the check looks at -----

  /** The value under the key has the id, alone or in a list. */
  ghost predicate Held(fields: map<string, Value>, key: string, id: string) {
    key in fields && SaysAmong(fields[key], id)
  }

  ghost predicate ConfigHas(config: Value, id: string) {
    config.Object? && Held(config.fields, "model_definition_id", id)
  }

  /** A definition given in a configuration, under the plain spellings all the way. */
  ghost predicate PlainConfig(fields: map<string, Value>, id: string) {
    || ("model_config" in fields && ConfigHas(fields["model_config"], id))
    || ("model_configs" in fields && fields["model_configs"].List? && exists c :: c in fields["model_configs"].items && ConfigHas(c, id))
  }

  /** The methods the check knows. */
  predicate Known(r: Request) {
    r.verb in {"GET", "POST", "PATCH", "PUT", "DELETE"}
  }

  /** The id is given plainly at the top: as a path parameter; in the query of a GET, or of a DELETE without an object body; in the body. */
  ghost predicate AtTop(r: Request, key: string, id: string) {
    && Known(r)
    && (|| Held(r.pathParams, key, id)
        || (Held(r.query, key, id) && (r.verb == "GET" || (r.verb == "DELETE" && !HasObjectBody(r))))
        || (HasObjectBody(r) && r.verb != "GET" && Held(r.body.value.fields, key, id)))
  }

  ghost predicate GivesDefinition(r: Request, id: string) {
    AtTop(r, "model_definition_id", id) || (Known(r) && HasObjectBody(r) && PlainConfig(r.body.value.fields, id))
  }

  ghost predicate GivesSecret(r: Request, id: string) {
    AtTop(r, "secret_id", id)
  }

  /** The ids given, none where they cannot be read. */
  function Ids(ids: Option<seq<string>>): seq<string> {
    if ids.Some? then ids.value else []
  }

  lemma HeldIff(fields: map<string, Value>, key: string, id: string)
    ensures id in ValuesAt(fields, key) <==> Held(fields, key, id)
  {
    if key in fields {
      NormalizedValuesIff(fields[key], id);
    }
  }

  lemma ConfigHasIff(config: Value, id: string)
    ensures id in ConfigIds(config) <==> ConfigHas(config, id)
  {
    if config.Object? {
      HeldIff(config.fields, "model_definition_id", id);
    }
  }

  lemma {:induction false} EachConfigHas(items: seq<Value>, id: string)
    ensures id in EachConfig(items) <==> exists c :: c in items && ConfigHas(c, id)
  {
    if items != [] {
      var front, last := items[..|items| - 1], items[|items| - 1];
      assert front + [last] == items;
      EachConfigHas(front, id);
      ConfigHasIff(last, id);
    }
  }

  lemma NestedIdsArePlain(body: map<string, Value>, id: string)
    ensures id in NestedIds(body) <==> PlainConfig(body, id)
  {
    if "model_config" in body {
      ConfigHasIff(body["model_config"], id);
    }
    if "model_configs" in body && body["model_configs"].List? {
      EachConfigHas(body["model_configs"].items, id);
    }
  }

  lemma ParamsAreAtTop(r: Request, key: string, id: string)
    ensures id in Ids(ParamValues(r, key)) <==> AtTop(r, key, id)
  {
    HeldIff(r.pathParams, key, id);
    HeldIff(r.query, key, id);
    HeldIff(BodyFields(r), key, id);
  }

  lemma DefinitionsAreGiven(r: Request, id: string)
    ensures id in Ids(DefinitionIds(r)) <==> GivesDefinition(r, id)
  {
    ParamsAreAtTop(r, "model_definition_id", id);
    NestedIdsArePlain(BodyFields(r), id);
    assert DefinitionIds(r).Some? ==>
      (id in DefinitionIds(r).value <==> id in ParamValues(r, "model_definition_id").value || id in NestedIds(BodyFields(r)));
  }

  // ----- The names of those ids -----

  /** The check has names to go by: some id is given, and every one that is resolves. */
  ghost predicate HasNames(gives: string -> bool, lookup: string -> Option<string>) {
    (exists i :: gives(i)) && forall i :: gives(i) ==> lookup(i).Some?
  }

  /** The names for the ids of a predicate: those of its ids if there are names to go by, otherwise none. */
  lemma NamesOfGiven(ids: Option<seq<string>>, gives: string -> bool, lookup: string -> Option<string>, n: string)
    requires forall i :: i in Ids(ids) <==> gives(i)
    ensures NamesFor(ids, lookup) != [] <==> HasNames(gives, lookup)
    ensures HasNames(gives, lookup) ==> (n in NamesFor(ids, lookup) <==> exists i :: gives(i) && lookup(i) == Some(n))
  {
    var names := NamesFor(ids, lookup);
    if names != [] {
      var i :| i in Dedupe(ids.value) && lookup(i) == Some(names[0]);
      assert gives(i);
      assert forall j :: gives(j) ==> j in Dedupe(ids.value);
    }
    if HasNames(gives, lookup) {
      var i :| gives(i);
      assert i in Dedupe(ids.value) && lookup(i).value in names;
    }
  }

  lemma DefinitionNames(env: Env, r: Request, n: string)
    ensures Definitions(env, r) != [] <==> HasNames(i => GivesDefinition(r, i), env.definitionName)
    ensures Definitions(env, r) != [] ==> (n in Definitions(env, r) <==> exists i :: GivesDefinition(r, i) && env.definitionName(i) == Some(n))
  {
    var gives := i => GivesDefinition(r, i);
    forall i ensures i in Ids(DefinitionIds(r)) <==> gives(i) {
      DefinitionsAreGiven(r, i);
    }
    NamesOfGiven(DefinitionIds(r), gives, env.definitionName, n);
  }

  lemma SecretNames(env: Env, r: Request, n: string)
    ensures Secrets(env, r) != [] <==> HasNames(i => GivesSecret(r, i), env.secretName)
    ensures Secrets(env, r) != [] ==> (n in Secrets(env, r) <==> exists i :: GivesSecret(r, i) && env.secretName(i) == Some(n))
  {
    var gives := i => GivesSecret(r, i);
    forall i ensures i in Ids(ParamValues(r, "secret_id")) <==> gives(i) {
      ParamsAreAtTop(r, "secret_id", i);
    }
    NamesOfGiven(ParamValues(r, "secret_id"), gives, env.secretName, n);
  }

  // ----- What is stored -----

  ghost predicate At(fields: map<string, Value>, key: string, id: string) {
    key in fields && Says(fields[key], id)
  }

  /** Under the first spelling if that says anything, otherwise under the other. */
  ghost predicate AtFirst(fields: map<string, Value>, key: string, other: string, id: string) {
    if exists i :: At(fields, key, i) then At(fields, key, id) else At(fields, other, id)
  }

  ghost predicate InBody(r: Request, key: string, other: string, id: string) {
    HasObjectBody(r) && AtFirst(r.body.value.fields, key, other, id)
  }

  /** The id a request refers to: in its body if that says any, otherwise in its path. */
  ghost predicate Refers(r: Request, key: string, other: string, id: string) {
    if exists i :: InBody(r, key, other, i) then InBody(r, key, other, id) else AtFirst(r.pathParams, key, other, id)
  }

  lemma FirstTextIff(fields: map<string, Value>, key: string, other: string, id: string)
    ensures FirstText(fields, key, other) == Some(id) <==> AtFirst(fields, key, other, id)
  {
    forall v, i ensures NormalizeText(v) == Some(i) <==> Says(v, i) {
      NormalizedIff(v, i);
    }
    if key in fields && NormalizeText(fields[key]).Some? {
      assert At(fields, key, NormalizeText(fields[key]).value);
    }
  }

  lemma RefersIff(r: Request, key: string, other: string, id: string)
    ensures MappingValue(r, key, other) == Some(id) <==> Refers(r, key, other, id)
  {
    forall fields, i ensures FirstText(fields, key, other) == Some(i) <==> AtFirst(fields, key, other, i) {
      FirstTextIff(fields, key, other, i);
    }
    if FirstText(BodyFields(r), key, other).Some? {
      assert InBody(r, key, other, FirstText(BodyFields(r), key, other).value);
    }
  }

  /** A definition with this name is stored with the endpoint that the request refers to. */
  ghost predicate StoredDefinition(env: Env, r: Request, n: string) {
    exists id, v :: Refers(r, "endpoint_id", "endpointId", id) && v in env.storedDefinitions(id) && Says(v, n)
  }

  /** The secret with this name is stored with the definition that the request refers to. */
  ghost predicate StoredSecret(env: Env, r: Request, n: string) {
    exists id :: Refers(r, "model_definition_id", "modelDefinitionId", id) && Says(env.storedSecret(id), n)
  }

  lemma StoredDefinitionIff(env: Env, r: Request, n: string)
    ensures n in StoredDefinitions(env, r) <==> StoredDefinition(env, r, n)
  {
    var found := MappingValue(r, "endpoint_id", "endpointId");
    forall i ensures found == Some(i) <==> Refers(r, "endpoint_id", "endpointId", i) {
      RefersIff(r, "endpoint_id", "endpointId", i);
    }
    forall v ensures NormalizeText(v) == Some(n) <==> Says(v, n) {
      NormalizedIff(v, n);
    }
  }

  lemma StoredSecretIff(env: Env, r: Request, n: string)
    ensures n in StoredSecrets(env, r) <==> StoredSecret(env, r, n)
  {
    var found := MappingValue(r, "model_definition_id", "modelDefinitionId");
    forall i ensures found == Some(i) <==> Refers(r, "model_definition_id", "modelDefinitionId", i) {
      RefersIff(r, "model_definition_id", "modelDefinitionId", i);
    }
    forall v ensures NormalizeText(v) == Some(n) <==> Says(v, n) {
      NormalizedIff(v, n);
    }
  }

  // ----- The check -----

  /** The body is read only when the request as it is gives no names to go by. */
  ghost predicate Looks(gives: string -> bool, lookup: string -> Option<string>, r: Request, r': Request) {
    r' == if HasNames(gives, lookup) then r else Load(r, false)
  }

  /** The names found for an endpoint mutation: of the ids it gives; without names to go by, those stored, for a full update. */
  ghost predicate FindsDefinition(env: Env, rule: Rule, r: Request, n: string) {
    if HasNames(i => GivesDefinition(r, i), env.definitionName) then exists i :: GivesDefinition(r, i) && env.definitionName(i) == Some(n)
    else rule.verb == Some("update") && r.path == "/api/2.0/mlflow/gateway/endpoints/update" && StoredDefinition(env, r, n)
  }

  /** The names found for a definition mutation: of the ids it gives; without names to go by, the one stored, for an update. */
  ghost predicate FindsSecret(env: Env, rule: Rule, r: Request, n: string) {
    if HasNames(i => GivesSecret(r, i), env.secretName) then exists i :: GivesSecret(r, i) && env.secretName(i) == Some(n)
    else rule.verb == Some("update") && StoredSecret(env, r, n)
  }

  predicate UseOf(env: Env, ws: string, resource: string, name: Option<string>) {
    env.allowed(Review(resource, "create", ws, Some("use"), name))
  }

  ghost predicate UseOfAll(env: Env, ws: string, resource: string, finds: string -> bool) {
    (exists n :: finds(n)) && forall n :: finds(n) ==> UseOf(env, ws, resource, Some(n))
  }

  predicate Changes(rule: Rule, resource: string) {
    !rule.skipGateway && rule.resource == Some(resource) && rule.subresource != Some("use") && rule.verb in {Some("create"), Some("update")}
  }

  /** Of endpoints: broad use, or use of each of at least one definition found, or an update that has none. */
  ghost predicate EndpointPasses(env: Env, ws: string, rule: Rule, r: Request) {
    || UseOf(env, ws, "gatewaymodeldefinitions", None)
    || UseOfAll(env, ws, "gatewaymodeldefinitions", n => FindsDefinition(env, rule, r, n))
    || (rule.verb == Some("update") && forall n :: !FindsDefinition(env, rule, r, n))
  }

  /** The check passes, and this request goes on. */
  ghost predicate UsePasses(env: Env, ws: string, rule: Rule, r: Request, r': Request) {
    if Changes(rule, "gatewayendpoints") then Looks(i => GivesDefinition(r, i), env.definitionName, r, r') && EndpointPasses(env, ws, rule, r')
    else if Changes(rule, "gatewaymodeldefinitions") && !UseOf(env, ws, "gatewaysecrets", None) then
      Looks(i => GivesSecret(r, i), env.secretName, r, r') && UseOfAll(env, ws, "gatewaysecrets", n => FindsSecret(env, rule, r', n))
    else r' == r
  }

  lemma DefinitionsFound(env: Env, rule: Rule, r: Request, n: string)
    ensures n in FoundDefinitions(env, rule, r) <==> FindsDefinition(env, rule, r, n)
  {
    DefinitionNames(env, r, n);
    StoredDefinitionIff(env, r, n);
  }

  lemma DefinitionsLookedFor(env: Env, rule: Rule, r: Request)
    ensures var (found, names) := FindDefinitions(env, rule, r);
            Looks(i => GivesDefinition(r, i), env.definitionName, r, found) && names == FoundDefinitions(env, rule, found)
  {
    DefinitionNames(env, r, "");
  }

  lemma SecretsFound(env: Env, rule: Rule, r: Request, n: string)
    ensures n in FoundSecrets(env, rule, r) <==> FindsSecret(env, rule, r, n)
  {
    SecretNames(env, r, n);
    StoredSecretIff(env, r, n);
  }

  lemma SecretsLookedFor(env: Env, rule: Rule, r: Request)
    ensures var (found, names) := FindSecrets(env, rule, r);
            Looks(i => GivesSecret(r, i), env.secretName, r, found) && names == FoundSecrets(env, rule, found)
  {
    SecretNames(env, r, "");
  }

  lemma UseOfAllIff(env: Env, ws: string, resource: string, names: seq<string>, finds: string -> bool)
    requires forall n :: n in names <==> finds(n)
    ensures MayUseAll(env, ws, resource, names) <==> UseOfAll(env, ws, resource, finds)
    ensures names == [] <==> forall n :: !finds(n)
  {
    if names != [] {
      assert finds(names[0]);
    }
  }

  lemma EndpointPassesIff(env: Env, ws: string, rule: Rule, r: Request, r': Request)
    ensures EndpointUse(env, ws, rule, r) == Ok(r') <==> Looks(i => GivesDefinition(r, i), env.definitionName, r, r') && EndpointPasses(env, ws, rule, r')
  {
    var (found, names) := FindDefinitions(env, rule, r);
    DefinitionsLookedFor(env, rule, r);
    forall n ensures n in names <==> FindsDefinition(env, rule, found, n) {
      DefinitionsFound(env, rule, found, n);
    }
    UseOfAllIff(env, ws, "gatewaymodeldefinitions", names, n => FindsDefinition(env, rule, found, n));
  }

  lemma DefinitionPassesIff(env: Env, ws: string, rule: Rule, r: Request, r': Request)
    requires !UseOf(env, ws, "gatewaysecrets", None)
    ensures DefinitionUse(env, ws, rule, r) == Ok(r') <==>
      Looks(i => GivesSecret(r, i), env.secretName, r, r') && UseOfAll(env, ws, "gatewaysecrets", n => FindsSecret(env, rule, r', n))
  {
    var (found, names) := FindSecrets(env, rule, r);
    SecretsLookedFor(env, rule, r);
    forall n ensures n in names <==> FindsSecret(env, rule, found, n) {
      SecretsFound(env, rule, found, n);
    }
    UseOfAllIff(env, ws, "gatewaysecrets", names, n => FindsSecret(env, rule, found, n));
  }

  /** The check passes a request on, as this one, exactly then; its refusal says which use is missing. */
  lemma UsePassesIff(env: Env, ws: string, rule: Rule, r: Request, r': Request)
    ensures CheckUse(env, ws, rule, r) == Ok(r') <==> UsePasses(env, ws, rule, r, r')
    ensures CheckUse(env, ws, rule, r).Err? ==>
              CheckUse(env, ws, rule, r).error == if rule.resource == Some("gatewayendpoints") then DefinitionUseRequired else SecretUseRequired
  {
    if Changes(rule, "gatewayendpoints") {
      EndpointPassesIff(env, ws, rule, r, r');
    } else if Changes(rule, "gatewaymodeldefinitions") && !UseOf(env, ws, "gatewaysecrets", None) {
      DefinitionPassesIff(env, ws, rule, r, r');
    }
  }
}
