/**
 * The dependencies that a gateway mutation really has: the ids its handler takes from the body, a string body
 * decoded once more, in either spelling, nested configurations included. The check for `use` permission looks
 * at one spelling in an object body, falls back on what is stored, and sometimes leaves the body unread. What
 * it covers is said first for all grants, then in terms of the request; and three requests show what it misses.
 */
module GatewayDependencies {
  import opened Wrappers
  import opened Json
  import opened Requests
  import opened Collections
  import opened GetBody
  import opened Authority
  import opened Gateway
  import opened UseChecks

  // ----- What a request carries -----

  function SecretField(): Field { Field("secret_id", "secretId", false) }

  function DefinitionField(): Field { Field("model_definition_id", "modelDefinitionId", false) }

  function ConfigField(): Field { Field("model_config", "modelConfig", false) }

  function ConfigsField(): Field { Field("model_configs", "modelConfigs", true) }

  predicate AmbiguousConfig(v: Value) {
    v.Object? && BothSpellings(DefinitionField(), v.fields)
  }

  predicate AmbiguousConfigs(v: Value) {
    v.List? && exists c :: c in v.items && AmbiguousConfig(c)
  }

  /** Some field is spelled twice, and the handler refuses the body. */
  predicate Ambiguous(body: Body) {
    || BothSpellings(SecretField(), body) || BothSpellings(DefinitionField(), body)
    || BothSpellings(ConfigField(), body) || BothSpellings(ConfigsField(), body)
    || (Present(ConfigField(), body) && AmbiguousConfig(Given(ConfigField(), body)))
    || (Present(ConfigsField(), body) && AmbiguousConfigs(Given(ConfigsField(), body)))
  }

  /** The fields the handler takes: the ids in the query for a GET that has one, otherwise those of the body. */
  function Taken(r: Request, codec: Codec): Body {
    if r.verb == "GET" && r.query != map[] then
      map f | f in [SecretField(), DefinitionField()] && f.name in r.query :: f.name := QueryValue(f, r.query[f.name])
    else
      var d := Decoded(Whole(r), codec);
      if d.None? || !HasObjectBody(d.value) || Ambiguous(d.value.body.value.fields) then map[] else d.value.body.value.fields
  }

  predicate Under(fields: Body, key: string, id: string) {
    key in fields && NormalizeText(fields[key]) == Some(id)
  }

  predicate Names(fields: Body, f: Field, id: string) {
    Under(fields, f.name, id) || Under(fields, f.jsonName, id)
  }

  predicate ConfigNames(v: Value, id: string) {
    v.Object? && Names(v.fields, DefinitionField(), id)
  }

  predicate ConfigsName(v: Value, id: string) {
    v.List? && exists c :: c in v.items && ConfigNames(c, id)
  }

  predicate CarriesSecret(fields: Body, id: string) {
    Names(fields, SecretField(), id)
  }

  predicate CarriesDefinition(fields: Body, id: string) {
    || Names(fields, DefinitionField(), id)
    || (Present(ConfigField(), fields) && ConfigNames(Given(ConfigField(), fields), id))
    || (Present(ConfigsField(), fields) && ConfigsName(Given(ConfigsField(), fields), id))
  }

  /** The body, decoded, spells no field twice. */
  predicate Plain(r: Request, codec: Codec) {
    var d := Decoded(Whole(r), codec);
    d.Some? && HasObjectBody(d.value) ==> !Ambiguous(d.value.body.value.fields)
  }

  lemma NamesIff(fields: Body, f: Field, id: string)
    requires !BothSpellings(f, fields) && f.name != f.jsonName
    ensures Names(fields, f, id) <==> Present(f, fields) && NormalizeText(Given(f, fields)) == Some(id)
  {
  }

  /** The ids taken are those the handler reads for the field, as they are. */
  lemma TakenIsRead(r: Request, codec: Codec, f: Field, id: string)
    requires (f == SecretField() || f == DefinitionField()) && Plain(r, codec)
    ensures Names(Taken(r, codec), f, id) <==>
      exists v :: HandlerReads(Whole(r), f, codec.(convert := (g, w) => Some(w))) == Is(v) && Says(v, id)
  {
    var asIs := codec.(convert := (g, w) => Some(w));
    forall v ensures NormalizeText(v) == Some(id) <==> Says(v, id) {
      NormalizedIff(v, id);
    }
    TakenReading(r, codec, asIs, f, id);
  }

  lemma TakenReading(r: Request, codec: Codec, asIs: Codec, f: Field, id: string)
    requires (f == SecretField() || f == DefinitionField()) && Plain(r, codec)
    requires asIs.decode == codec.decode && forall g, v :: asIs.convert(g, v) == Some(v)
    ensures var reading := HandlerReads(Whole(r), f, asIs);
            Names(Taken(r, codec), f, id) <==> reading.Is? && NormalizeText(reading.value) == Some(id)
  {
    PlainKeys();
    assert Decoded(Whole(r), asIs) == Decoded(Whole(r), codec);
    if !(r.verb == "GET" && r.query != map[]) && !BothSpellings(f, Taken(r, codec)) {
      NamesIff(Taken(r, codec), f, id);
    }
  }

  // ----- What the check covers -----

  /** Every dependency of the request may be used. */
  ghost predicate DependenciesUsable(env: Env, ws: string, rule: Rule, r: Request) {
    && (Changes(rule, "gatewayendpoints") ==>
          || UseOf(env, ws, "gatewaymodeldefinitions", None)
          || forall id :: CarriesDefinition(Taken(r, env.codec), id) && env.definitionName(id).Some? ==>
               UseOf(env, ws, "gatewaymodeldefinitions", env.definitionName(id)))
    && (Changes(rule, "gatewaymodeldefinitions") ==>
          || UseOf(env, ws, "gatewaysecrets", None)
          || forall id :: CarriesSecret(Taken(r, env.codec), id) && env.secretName(id).Some? ==>
               UseOf(env, ws, "gatewaysecrets", env.secretName(id)))
  }

  /** The check finds other definitions, or for an update none, but not that of an id the request carries. */
  ghost predicate MissesDefinition(env: Env, rule: Rule, r: Request, id: string) {
    var found := FoundDefinitions(env, rule, ReadPart(env, rule, r));
    && CarriesDefinition(Taken(r, env.codec), id) && env.definitionName(id).Some? && env.definitionName(id).value !in found
    && (found != [] || rule.verb == Some("update"))
  }

  /** The check finds other secrets, but not that of an id the request carries. */
  ghost predicate MissesSecret(env: Env, rule: Rule, r: Request, id: string) {
    var found := FoundSecrets(env, rule, ReadPart(env, rule, r));
    && CarriesSecret(Taken(r, env.codec), id) && env.secretName(id).Some? && env.secretName(id).value !in found
    && found != []
  }

  ghost predicate Misses(env: Env, rule: Rule, r: Request) {
    || (Changes(rule, "gatewayendpoints") && exists id :: MissesDefinition(env, rule, r, id))
    || (Changes(rule, "gatewaymodeldefinitions") && exists id :: MissesSecret(env, rule, r, id))
  }

  /** The same store under other grants. */
  function With(env: Env, allowed: Review -> bool): Env {
    env.(allowed := allowed)
  }

  /** Whatever the grants, passing the check means that every dependency may be used. */
  ghost predicate Covers(env: Env, ws: string, rule: Rule, r: Request) {
    forall allowed: Review -> bool ::
      CheckUse(With(env, allowed), ws, rule, r).Ok? ==> DependenciesUsable(With(env, allowed), ws, rule, r)
  }

  lemma GrantsDoNotMatter(env: Env, rule: Rule, r: Request, allowed: Review -> bool)
    ensures ReadPart(With(env, allowed), rule, r) == ReadPart(env, rule, r)
    ensures FoundDefinitions(With(env, allowed), rule, ReadPart(env, rule, r)) == FoundDefinitions(env, rule, ReadPart(env, rule, r))
    ensures FoundSecrets(With(env, allowed), rule, ReadPart(env, rule, r)) == FoundSecrets(env, rule, ReadPart(env, rule, r))
    ensures Misses(With(env, allowed), rule, r) <==> Misses(env, rule, r)
  {
    assert forall id :: MissesDefinition(With(env, allowed), rule, r, id) <==> MissesDefinition(env, rule, r, id);
    assert forall id :: MissesSecret(With(env, allowed), rule, r, id) <==> MissesSecret(env, rule, r, id);
  }

  /** A request that passes the check has usable dependencies, unless the check misses one. */
  lemma PassingIsEnough(env: Env, ws: string, rule: Rule, r: Request)
    requires CheckUse(env, ws, rule, r).Ok?
    ensures DependenciesUsable(env, ws, rule, r) || Misses(env, rule, r)
  {
    UseIffSeen(env, ws, rule, r);
    if !Misses(env, rule, r) {
      forall id | CarriesDefinition(Taken(r, env.codec), id) && env.definitionName(id).Some? && Changes(rule, "gatewayendpoints")
        ensures UseOf(env, ws, "gatewaymodeldefinitions", None) || UseOf(env, ws, "gatewaymodeldefinitions", env.definitionName(id))
      {
        assert !MissesDefinition(env, rule, r, id);
      }
      forall id | CarriesSecret(Taken(r, env.codec), id) && env.secretName(id).Some? && Changes(rule, "gatewaymodeldefinitions")
        ensures UseOf(env, ws, "gatewaysecrets", None) || UseOf(env, ws, "gatewaysecrets", env.secretName(id))
      {
        assert !MissesSecret(env, rule, r, id);
      }
    }
  }

  /** All grants but broad use of a resource, and use of this one. */
  function AllBut(resource: string, name: string): Review -> bool {
    (q: Review) => !(q.resource == resource && (q.name.None? || q.name == Some(name)))
  }

  lemma MissedDefinitionPasses(env: Env, ws: string, rule: Rule, r: Request, id: string)
    requires Changes(rule, "gatewayendpoints") && MissesDefinition(env, rule, r, id)
    ensures !Covers(env, ws, rule, r)
  {
    var n := env.definitionName(id).value;
    var allowed := AllBut("gatewaymodeldefinitions", n);
    var e := With(env, allowed);
    GrantsDoNotMatter(env, rule, r, allowed);
    UseIffSeen(e, ws, rule, r);
    assert !UseOf(e, ws, "gatewaymodeldefinitions", Some(n)) && !UseOf(e, ws, "gatewaymodeldefinitions", None);
    assert CheckUse(e, ws, rule, r).Ok? && !DependenciesUsable(e, ws, rule, r);
  }

  lemma MissedSecretPasses(env: Env, ws: string, rule: Rule, r: Request, id: string)
    requires Changes(rule, "gatewaymodeldefinitions") && MissesSecret(env, rule, r, id)
    ensures !Covers(env, ws, rule, r)
  {
    var n := env.secretName(id).value;
    var allowed := AllBut("gatewaysecrets", n);
    var e := With(env, allowed);
    GrantsDoNotMatter(env, rule, r, allowed);
    UseIffSeen(e, ws, rule, r);
    assert !UseOf(e, ws, "gatewaysecrets", Some(n)) && !UseOf(e, ws, "gatewaysecrets", None);
    assert CheckUse(e, ws, rule, r).Ok? && !DependenciesUsable(e, ws, rule, r);
  }

  /** The check covers the dependencies of a request, whatever the grants, exactly unless it misses one. */
  lemma CoversIff(env: Env, ws: string, rule: Rule, r: Request)
    ensures Covers(env, ws, rule, r) <==> !Misses(env, rule, r)
  {
    if Misses(env, rule, r) {
      if id :| Changes(rule, "gatewayendpoints") && MissesDefinition(env, rule, r, id) {
        MissedDefinitionPasses(env, ws, rule, r, id);
      } else {
        var id :| MissesSecret(env, rule, r, id);
        MissedSecretPasses(env, ws, rule, r, id);
      }
    } else {
      forall allowed: Review -> bool | CheckUse(With(env, allowed), ws, rule, r).Ok? ensures DependenciesUsable(With(env, allowed), ws, rule, r) {
        GrantsDoNotMatter(env, rule, r, allowed);
        PassingIsEnough(With(env, allowed), ws, rule, r);
      }
    }
  }

  // ----- Covered means given plainly -----

  /** The check looks at the id: it is given plainly in what it reads. */
  ghost predicate DefinitionLookedAt(env: Env, rule: Rule, r: Request, id: string) {
    GivesDefinition(ReadPart(env, rule, r), id)
  }

  /** The check finds the name of the id, or it finds none and refuses a creation. */
  ghost predicate DefinitionSafe(env: Env, rule: Rule, r: Request, id: string)
    requires env.definitionName(id).Some?
  {
    var part := ReadPart(env, rule, r);
    || FindsDefinition(env, rule, part, env.definitionName(id).value)
    || (rule.verb == Some("create") && forall n :: !FindsDefinition(env, rule, part, n))
  }

  /** The check finds the name of the id, or it finds none and refuses. */
  ghost predicate SecretSafe(env: Env, rule: Rule, r: Request, id: string)
    requires env.secretName(id).Some?
  {
    var part := ReadPart(env, rule, r);
    FindsSecret(env, rule, part, env.secretName(id).value) || forall n :: !FindsSecret(env, rule, part, n)
  }

  lemma DefinitionMissedIff(env: Env, rule: Rule, r: Request, id: string)
    requires Changes(rule, "gatewayendpoints") && env.definitionName(id).Some?
    ensures MissesDefinition(env, rule, r, id) <==> CarriesDefinition(Taken(r, env.codec), id) && !DefinitionSafe(env, rule, r, id)
  {
    var part := ReadPart(env, rule, r);
    var found := FoundDefinitions(env, rule, part);
    forall n ensures n in found <==> FindsDefinition(env, rule, part, n) {
      DefinitionsFound(env, rule, part, n);
    }
    assert found != [] ==> FindsDefinition(env, rule, part, found[0]);
  }

  lemma SecretMissedIff(env: Env, rule: Rule, r: Request, id: string)
    requires Changes(rule, "gatewaymodeldefinitions") && env.secretName(id).Some?
    ensures MissesSecret(env, rule, r, id) <==> CarriesSecret(Taken(r, env.codec), id) && !SecretSafe(env, rule, r, id)
  {
    var part := ReadPart(env, rule, r);
    var found := FoundSecrets(env, rule, part);
    forall n ensures n in found <==> FindsSecret(env, rule, part, n) {
      SecretsFound(env, rule, part, n);
    }
    assert found != [] ==> FindsSecret(env, rule, part, found[0]);
  }

  /**
   * The check covers an endpoint mutation exactly if every definition it carries, and that there is, has the name
   * of one the check looks at, plainly spelled in what it reads, all of which there are; or the check looks at
   * none, or at one that there is not, and refuses a creation, or the definition is stored already with the
   * endpoint of a full update.
   */
  lemma DefinitionsCoveredIff(env: Env, ws: string, rule: Rule, r: Request)
    requires Changes(rule, "gatewayendpoints")
    ensures Covers(env, ws, rule, r) <==>
      forall id :: CarriesDefinition(Taken(r, env.codec), id) && env.definitionName(id).Some? ==> DefinitionSafe(env, rule, r, id)
  {
    CoversIff(env, ws, rule, r);
    forall id | env.definitionName(id).Some?
      ensures MissesDefinition(env, rule, r, id) <==> CarriesDefinition(Taken(r, env.codec), id) && !DefinitionSafe(env, rule, r, id)
    {
      DefinitionMissedIff(env, rule, r, id);
    }
  }

  /** The same for the secrets of a model definition, of which an update always needs one. */
  lemma SecretsCoveredIff(env: Env, ws: string, rule: Rule, r: Request)
    requires Changes(rule, "gatewaymodeldefinitions")
    ensures Covers(env, ws, rule, r) <==>
      forall id :: CarriesSecret(Taken(r, env.codec), id) && env.secretName(id).Some? ==> SecretSafe(env, rule, r, id)
  {
    CoversIff(env, ws, rule, r);
    forall id | env.secretName(id).Some?
      ensures MissesSecret(env, rule, r, id) <==> CarriesSecret(Taken(r, env.codec), id) && !SecretSafe(env, rule, r, id)
    {
      SecretMissedIff(env, rule, r, id);
    }
  }

  // ----- What it misses -----

  /** An update that may use what is in sight but not the other. */
  predicate UpdatesWith(env: Env, ws: string, rule: Rule, resource: string, use: string, mine: string, other: string) {
    && Changes(rule, resource) && rule.verb == Some("update") && Clean(mine) && Clean(other)
    && UseOf(env, ws, use, Some(mine)) && !UseOf(env, ws, use, Some(other)) && !UseOf(env, ws, use, None)
  }

  /** Passes the check with a dependency that may not be used. */
  ghost predicate Slips(env: Env, ws: string, rule: Rule, r: Request) {
    CheckUse(env, ws, rule, r).Ok? && !DependenciesUsable(env, ws, rule, r)
  }

  /** A definition can be moved to another secret: the check sees no secret, and takes the stored one. */
  lemma AliasSecretIsNotChecked(env: Env, ws: string, rule: Rule, r: Request, m: string, mine: string, other: string)
    requires UpdatesWith(env, ws, rule, "gatewaymodeldefinitions", "gatewaysecrets", mine, other) && Clean(m)
    requires env.storedSecret(m) == Text(mine) && env.secretName(other) == Some(other)
    requires r.verb == "POST" && r.pathParams == map[]
    requires r.body == Some(Object(map["model_definition_id" := Text(m), "secretId" := Text(other)]))
    ensures Slips(env, ws, rule, r)
  {
    AliasBody(r.body.value.fields, m, other);
    StoredIsTaken(env, rule, r, m, mine);
    TakenAsIs(r, env.codec);
    UnseenSecretSlips(env, ws, rule, r, mine, other);
  }

  lemma PlainKeys()
    ensures |"model_definition_id"| == 19 && |"modelDefinitionId"| == 17 && |"secret_id"| == 9 && |"secretId"| == 8
    ensures |"model_config"| == 12 && |"modelConfig"| == 11 && |"model_configs"| == 13 && |"modelConfigs"| == 12
  {
  }

  lemma AliasBody(body: Body, m: string, other: string)
    requires body == map["model_definition_id" := Text(m), "secretId" := Text(other)] && Clean(m) && Clean(other)
    ensures !Ambiguous(body) && "secret_id" !in body && CarriesSecret(body, other)
    ensures "model_definition_id" in body && body["model_definition_id"] == Text(m)
  {
    PlainKeys();
  }

  lemma TakenAsIs(r: Request, codec: Codec)
    requires r.verb != "GET" && HasObjectBody(Whole(r)) && !Ambiguous(Whole(r).body.value.fields)
    ensures Taken(r, codec) == Whole(r).body.value.fields
  {
  }

  lemma StoredIsTaken(env: Env, rule: Rule, r: Request, m: string, mine: string)
    requires rule.verb == Some("update") && r.verb == "POST" && r.pathParams == map[] && HasObjectBody(r)
    requires "secret_id" !in r.body.value.fields && Under(r.body.value.fields, "model_definition_id", m)
    requires env.storedSecret(m) == Text(mine) && Clean(mine)
    ensures FoundSecrets(env, rule, r) == [mine]
  {
    NoIds(env.secretName);
    assert ParamValues(r, "secret_id") == Some([]);
    assert MappingValue(r, "model_definition_id", "modelDefinitionId") == Some(m);
  }

  lemma NoIds(lookup: string -> Option<string>)
    ensures NamesFor(Some([]), lookup) == []
  {
  }

  lemma UnseenSecretSlips(env: Env, ws: string, rule: Rule, r: Request, mine: string, other: string)
    requires UpdatesWith(env, ws, rule, "gatewaymodeldefinitions", "gatewaysecrets", mine, other) && HasObjectBody(r)
    requires FoundSecrets(env, rule, r) == [mine] && CarriesSecret(Taken(r, env.codec), other) && env.secretName(other) == Some(other)
    ensures Slips(env, ws, rule, r)
  {
    assert MayUseAll(env, ws, "gatewaysecrets", FoundSecrets(env, rule, r));
    UseIffSeen(env, ws, rule, r);
  }

  /** An endpoint can be moved to another definition: the check sees none, and takes the stored ones. */
  lemma AliasDefinitionIsNotChecked(env: Env, ws: string, rule: Rule, r: Request, e: string, mine: string, other: string)
    requires UpdatesWith(env, ws, rule, "gatewayendpoints", "gatewaymodeldefinitions", mine, other) && Clean(e)
    requires env.storedDefinitions(e) == [Text(mine)] && env.definitionName(other) == Some(other)
    requires r.verb == "POST" && r.path == "/api/2.0/mlflow/gateway/endpoints/update" && r.pathParams == map[]
    requires r.body == Some(Object(map["endpoint_id" := Text(e), "modelConfigs" := List([Object(map["modelDefinitionId" := Text(other)])])]))
    ensures Slips(env, ws, rule, r)
  {
    AliasConfigs(r.body.value.fields, e, other);
    TakenAsIs(r, env.codec);
    StoredAreTaken(env, rule, r, e, mine);
    UnseenDefinitionSlips(env, ws, rule, r, mine, other);
  }

  lemma AliasConfigs(body: Body, e: string, other: string)
    requires body == map["endpoint_id" := Text(e), "modelConfigs" := List([Object(map["modelDefinitionId" := Text(other)])])]
    requires Clean(e) && Clean(other)
    ensures !Ambiguous(body) && "model_definition_id" !in body && "model_config" !in body && "model_configs" !in body
    ensures Under(body, "endpoint_id", e) && CarriesDefinition(body, other)
  {
    var configs := body["modelConfigs"];
    AliasConfig(configs.items[0], other);
    assert forall c :: c in configs.items ==> c == configs.items[0];
    assert ConfigsName(configs, other);
    PlainKeys();
    assert |"endpoint_id"| == 11;
  }

  lemma AliasConfig(config: Value, other: string)
    requires config == Object(map["modelDefinitionId" := Text(other)]) && Clean(other)
    ensures !AmbiguousConfig(config) && ConfigNames(config, other)
  {
    PlainKeys();
  }

  lemma StoredAreTaken(env: Env, rule: Rule, r: Request, e: string, mine: string)
    requires rule.verb == Some("update") && r.verb == "POST" && r.path == "/api/2.0/mlflow/gateway/endpoints/update" && r.pathParams == map[]
    requires HasObjectBody(r) && Under(r.body.value.fields, "endpoint_id", e)
    requires "model_definition_id" !in r.body.value.fields && "model_config" !in r.body.value.fields && "model_configs" !in r.body.value.fields
    requires env.storedDefinitions(e) == [Text(mine)] && Clean(mine)
    ensures FoundDefinitions(env, rule, r) == [mine]
  {
    NoIds(env.definitionName);
    assert DefinitionIds(r) == Some([]);
    OneStored(env, e, mine);
  }

  lemma OneStored(env: Env, e: string, mine: string)
    requires env.storedDefinitions(e) == [Text(mine)] && Clean(mine)
    ensures Dedupe(NormalizeAll(env.storedDefinitions(e))) == [mine]
  {
    NormalizeOneMore([], mine);
    assert [] + [Text(mine)] == [Text(mine)] && [] + [mine] == [mine];
    assert [mine][..0] == [] && Dedupe([mine]) == [mine];
  }

  lemma UnseenDefinitionSlips(env: Env, ws: string, rule: Rule, r: Request, mine: string, other: string)
    requires UpdatesWith(env, ws, rule, "gatewayendpoints", "gatewaymodeldefinitions", mine, other)
    requires FoundDefinitions(env, rule, ReadPart(env, rule, r)) == [mine]
    requires CarriesDefinition(Taken(r, env.codec), other) && env.definitionName(other) == Some(other)
    ensures Slips(env, ws, rule, r)
  {
    assert MayUseAll(env, ws, "gatewaymodeldefinitions", FoundDefinitions(env, rule, ReadPart(env, rule, r)));
    UseIffSeen(env, ws, rule, r);
  }

  /** An id that is not there hides the others: the check then finds none, and lets a partial update pass. */
  lemma UnresolvedIdHidesTheOthers(env: Env, ws: string, rule: Rule, r: Request, bogus: string, other: string)
    requires Changes(rule, "gatewayendpoints") && rule.verb == Some("update") && Clean(bogus) && Clean(other)
    requires env.definitionName(bogus).None? && env.definitionName(other) == Some(other)
    requires !UseOf(env, ws, "gatewaymodeldefinitions", None) && !UseOf(env, ws, "gatewaymodeldefinitions", Some(other))
    requires r.verb == "POST" && r.path == "/api/2.0/mlflow/gateway/endpoints/models/attach"
    requires r.body == Some(Object(map["model_definition_id" := Text(bogus), "model_config" := Object(map["model_definition_id" := Text(other)])]))
    ensures Slips(env, ws, rule, r) && DefinitionLookedAt(env, rule, r, bogus) && DefinitionLookedAt(env, rule, r, other)
  {
    PlainConfigs(r.body.value.fields, bogus, other);
    TakenAsIs(r, env.codec);
    BogusFindsNone(env, rule, r, bogus);
    UseIffSeen(env, ws, rule, r);
    assert DefinitionLookedAt(env, rule, r, other);
  }

  lemma PlainIsHeld(fields: Body, key: string, id: string)
    requires key in fields && fields[key] == Text(id) && Clean(id)
    ensures Held(fields, key, id) && Under(fields, key, id)
  {
    NormalizedIff(Text(id), id);
  }

  lemma PlainConfigs(body: Body, bogus: string, other: string)
    requires body == map["model_definition_id" := Text(bogus), "model_config" := Object(map["model_definition_id" := Text(other)])]
    requires Clean(bogus) && Clean(other)
    ensures !Ambiguous(body) && Held(body, "model_definition_id", bogus) && PlainConfig(body, other) && CarriesDefinition(body, other)
  {
    PlainKeys();
    PlainIsHeld(body, "model_definition_id", bogus);
    PlainConfigCarries(body, body["model_config"], other);
  }

  lemma PlainConfigCarries(body: Body, config: Value, other: string)
    requires "model_config" in body && "modelConfig" !in body && "model_configs" !in body && "modelConfigs" !in body
    requires "modelDefinitionId" !in body && "secretId" !in body
    requires body["model_config"] == config && config == Object(map["model_definition_id" := Text(other)]) && Clean(other)
    ensures !Ambiguous(body) && PlainConfig(body, other) && CarriesDefinition(body, other)
  {
    PlainKeys();
    PlainIsHeld(config.fields, "model_definition_id", other);
    assert ConfigNames(config, other) && !AmbiguousConfig(config) && ConfigHas(config, other);
    assert Given(ConfigField(), body) == config;
  }

  lemma BogusFindsNone(env: Env, rule: Rule, r: Request, bogus: string)
    requires Changes(rule, "gatewayendpoints") && rule.verb == Some("update") && env.definitionName(bogus).None?
    requires r.path != "/api/2.0/mlflow/gateway/endpoints/update" && r.body.Some? && DefinitionLookedAt(env, rule, r, bogus)
    ensures FoundDefinitions(env, rule, ReadPart(env, rule, r)) == []
  {
    DefinitionsAreGiven(ReadPart(env, rule, r), bogus);
    assert bogus in Dedupe(DefinitionIds(ReadPart(env, rule, r)).value);
  }

  /** Of a DELETE, a definition in the query is enough for the check, and the body is left unread. */
  lemma UnreadDependencyIsNotChecked(env: Env, ws: string, rule: Rule, r: Request, mine: string, other: string)
    requires UpdatesWith(env, ws, rule, "gatewayendpoints", "gatewaymodeldefinitions", mine, other)
    requires env.definitionName(mine) == Some(mine) && env.definitionName(other) == Some(other)
    requires r.verb == "DELETE" && r.body.None? && r.pathParams == map[] && r.query == map["model_definition_id" := Text(mine)]
    requires r.loader == Some(Some(Object(map["model_definition_id" := Text(other)])))
    ensures Slips(env, ws, rule, r)
  {
    NamedByDelete(env, r, mine);
    QueryIsEnough(env, rule, r, mine);
    PlainBody(r.loader.value.value.fields, other);
    TakenAsIs(r, env.codec);
    UnseenDefinitionSlips(env, ws, rule, r, mine, other);
  }

  lemma QueryIsEnough(env: Env, rule: Rule, r: Request, mine: string)
    requires Changes(rule, "gatewayendpoints") && Unread(r) && Definitions(env, r) == [mine]
    ensures FoundDefinitions(env, rule, ReadPart(env, rule, r)) == [mine]
  {
  }

  lemma PlainBody(body: Body, other: string)
    requires body == map["model_definition_id" := Text(other)] && Clean(other)
    ensures !Ambiguous(body) && CarriesDefinition(body, other)
  {
    PlainKeys();
  }
}
