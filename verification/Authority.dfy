/**
 * What the decision loop asks of the outside: access reviews, the tracking store, resource-name parsers; and
 * the collection filters that rewrite a request (`apply_request_collection_filter`).
 */
module Authority {
  import opened Wrappers
  import opened Json
  import opened Requests
  import opened Collections
  import opened GetBody
  import opened Narrowing
  import opened IdFilters
  import opened ResourceNames

  /** One `is_allowed` question. */
  datatype Review = Review(resource: string, verb: string, workspace: string, subresource: Option<string>, name: Option<string>)

  /** How a rule narrows a collection; `Search` stands for the filter-string and trace-location policies. */
  datatype Policy =
    | NoPolicy | BroadOnly | GraphQLFilter
    | ExperimentIds | ExperimentId | RunIds
    | AuthorizedIds | ListScorers
    | Search(kind: string, messaged: bool)

  datatype Env = Env(
    allowed: Review -> bool,
    candidates: string -> seq<string>,
    parsers: string -> Option<Parser>,
    experimentOfId: string -> Option<string>,
    experimentOfRun: string -> Option<string>,
    idOfExperiment: string -> Result<Option<string>, ()>,
    search: (string, string, Request) -> Outcome,
    fields: Policy -> seq<Field>,
    codec: Codec,
    definitionName: string -> Option<string>,
    secretName: string -> Option<string>,
    storedDefinitions: string -> seq<Value>,
    storedSecret: string -> Value)

  // ----- Reading experiments -----

  predicate MayReadExperiment(env: Env, ws: string, name: string) {
    env.allowed(Review("experiments", "get", ws, None, Some(name)))
  }

  /** `_can_read_experiment_id`. */
  predicate CanReadId(env: Env, ws: string, id: string) {
    env.experimentOfId(id).Some? && MayReadExperiment(env, ws, env.experimentOfId(id).value)
  }

  /** `_can_read_run_id`. */
  predicate CanReadRun(env: Env, ws: string, run: string) {
    env.experimentOfRun(run).Some? && MayReadExperiment(env, ws, env.experimentOfRun(run).value)
  }

  function IdReader(env: Env, ws: string): string -> bool {
    (id: string) => CanReadId(env, ws, id)
  }

  function RunReader(env: Env, ws: string): string -> bool {
    (run: string) => CanReadRun(env, ws, run)
  }

  function Confirmed(env: Env, ws: string, names: seq<string>): (r: seq<string>)
    ensures forall n :: n in r <==> n in names && MayReadExperiment(env, ws, n)
  {
    if names == [] then []
    else
      var front, last := Confirmed(env, ws, names[..|names| - 1]), names[|names| - 1];
      if MayReadExperiment(env, ws, last) then front + [last] else front
  }

  /** `discover_collection_scope` for experiments. */
  function ScopeOf(env: Env, ws: string): Scope {
    if env.allowed(Review("experiments", "get", ws, None, None)) then Scope(true, [])
    else Scope(false, Confirmed(env, ws, env.candidates(ws)))
  }

  function FoundIds(env: Env, names: seq<string>): (r: Result<seq<string>, ()>)
    ensures r.Ok? <==> forall n :: n in names ==> env.idOfExperiment(n).Ok?
    ensures r.Ok? ==> forall id :: id in r.value <==> exists n :: n in names && env.idOfExperiment(n) == Ok(Some(id))
  {
    if names == [] then Ok([])
    else
      var front, last := FoundIds(env, names[..|names| - 1]), env.idOfExperiment(names[|names| - 1]);
      if front.Err? || last.Err? then Err(())
      else if last.value.Some? then Ok(front.value + [last.value.value])
      else front
  }

  /** `resolve_experiment_ids_from_names`: names without an id are passed over; a failing lookup fails. */
  function IdsOf(env: Env, names: seq<string>): Result<seq<string>, ()> {
    var found := FoundIds(env, names);
    if found.Ok? then Ok(Dedupe(found.value)) else Err(())
  }

  // ----- Filters -----

  /** The message field an id filter is about. */
  function IdFieldOf(policy: Policy): Field {
    if policy.RunIds? then Field("run_ids", "runIds", true)
    else if policy.ExperimentId? then Field("experiment_id", "experimentId", false)
    else Field("experiment_ids", "experimentIds", true)
  }

  /** A handler takes the ids of a policy from the body in either spelling; from the query, several of all but the single id. */
  lemma IdsAreReadInEitherSpelling(policy: Policy, v: Value, s: string, codec: Codec)
    requires policy.ExperimentIds? || policy.RunIds? || policy.ExperimentId?
    ensures var f := IdFieldOf(policy);
            var keys := match policy case RunIds => ["run_ids", "runIds"] case ExperimentId => ["experiment_id", "experimentId"]
                                     case _ => ["experiment_ids", "experimentIds"];
            && BodyReading(f, map[keys[0] := v], codec) == BodyReading(f, map[keys[1] := v], codec) == Converted(f, v, codec)
            && QueryValue(f, Text(s)) == if policy.ExperimentId? then Text(s) else List([Text(s)])
  {
    assert |"run_ids"| == 7 && |"runIds"| == 6 && |"experiment_ids"| == 14 && |"experimentIds"| == 13 && |"experimentId"| == 12;
  }

  /** What makes its ids readable. */
  function ReaderOf(env: Env, ws: string, policy: Policy): string -> bool {
    if policy.RunIds? then RunReader(env, ws) else IdReader(env, ws)
  }

  /** The policy has a request message; the same policies need the body before they narrow. */
  predicate Messaged(policy: Policy) {
    policy.AuthorizedIds? || policy.ListScorers? || (policy.Search? && policy.messaged)
  }

  function NarrowToReadable(env: Env, ws: string, r: Request): Outcome {
    var scope := ScopeOf(env, ws);
    NarrowToScope(r, scope, IdsOf(env, scope.names))
  }

  function FilterScorers(env: Env, ws: string, r: Request): Outcome {
    if r.verb != "GET" || ("experiment_id" in r.query && "experiment_ids" in r.query) then (r, false)
    else if "experiment_id" in r.query then
      var id := NormalizeText(r.query["experiment_id"]);
      (r, id.Some? && CanReadId(env, ws, id.value))
    else NarrowToReadable(env, ws, r)
  }

  function Filtered(env: Env, ws: string, policy: Policy, r: Request): Outcome {
    match policy
    case ExperimentIds => FilterIds(r, "experiment_ids", IdReader(env, ws))
    case ExperimentId => FilterSingleId(r, "experiment_id", IdReader(env, ws))
    case RunIds => FilterIds(r, "run_ids", RunReader(env, ws))
    case AuthorizedIds => NarrowToReadable(env, ws, r)
    case ListScorers => FilterScorers(env, ws, r)
    case Search(kind, _) => env.search(kind, ws, r)
    case NoPolicy | BroadOnly | GraphQLFilter => (r, false)
  }

  /** `apply_request_collection_filter`. */
  function Apply(env: Env, ws: string, policy: Policy, r: Request): Outcome {
    if !Messaged(policy) then Filtered(env, ws, policy, r)
    else
      var (r1, ok) := Normalized(r, env.fields(policy), env.codec);
      if ok then Filtered(env, ws, policy, r1) else (r1, false)
  }

  // ----- What may be read, in terms of the store and the reviews -----

  /** Reading the experiment of this name is allowed. */
  predicate Opens(env: Env, ws: string, name: Option<string>) {
    name.Some? && env.allowed(Review("experiments", "get", ws, None, name))
  }

  /** An id is readable if it belongs to an experiment that may be read: its own, or its run's. */
  lemma ReadersAreExact(env: Env, ws: string, policy: Policy, id: string)
    ensures ReaderOf(env, ws, policy)(id) <==> Opens(env, ws, if policy == RunIds then env.experimentOfRun(id) else env.experimentOfId(id))
    ensures CanReadId(env, ws, id) <==> Opens(env, ws, env.experimentOfId(id))
    ensures IdReader(env, ws)(id) <==> Opens(env, ws, env.experimentOfId(id))
    ensures RunReader(env, ws)(id) <==> Opens(env, ws, env.experimentOfRun(id))
  {
  }

  /** The scope is broad if all experiments may be read; otherwise it has the suggested experiments that may be. */
  lemma ScopeIsExact(env: Env, ws: string)
    ensures ScopeOf(env, ws).broad <==> env.allowed(Review("experiments", "get", ws, None, None))
    ensures !ScopeOf(env, ws).broad ==>
              forall n :: n in ScopeOf(env, ws).names <==> n in env.candidates(ws) && Opens(env, ws, Some(n))
    ensures ScopeOf(env, ws).broad ==> ScopeOf(env, ws).names == []
  {
  }

  /** Its ids are those of its names, each once; there are none to go by if a lookup fails. */
  lemma IdsAreExact(env: Env, names: seq<string>)
    ensures IdsOf(env, names).Ok? <==> forall n :: n in names ==> env.idOfExperiment(n).Ok?
    ensures IdsOf(env, names).Ok? ==>
              var ids := IdsOf(env, names).value;
              && (forall i, j :: 0 <= i < j < |ids| ==> ids[i] != ids[j])
              && forall id :: id in ids <==> exists n :: n in names && env.idOfExperiment(n) == Ok(Some(id))
  {
  }

  /** An id of an experiment that may be read and that some source suggests. */
  ghost predicate Suggested(env: Env, ws: string, id: string) {
    exists n :: n in env.candidates(ws) && Opens(env, ws, Some(n)) && env.idOfExperiment(n) == Ok(Some(id))
  }

  /** Every suggested experiment that may be read can be looked up. */
  ghost predicate LookupsWork(env: Env, ws: string) {
    forall n :: n in env.candidates(ws) && Opens(env, ws, Some(n)) ==> env.idOfExperiment(n).Ok?
  }

  /** Suggested and readable, and listed wherever the request lists ids. */
  ghost predicate WantedOfReadable(env: Env, ws: string, r: Request, id: string) {
    Suggested(env, ws, id) && Wanted(r, [id], id)
  }

  /** Narrowing to the readable experiments applies exactly with broad access, or when it leaves some id of a request that can be read. */
  lemma ReadableNarrowingAppliesIff(env: Env, ws: string, r: Request)
    ensures NarrowToReadable(env, ws, r).1 <==>
      || env.allowed(Review("experiments", "get", ws, None, None))
      || (LookupsWork(env, ws) && SourcesLegible(r) && (r.verb == "POST" ==> HasObjectBody(r))
          && exists id :: WantedOfReadable(env, ws, r, id))
  {
    var scope := ScopeOf(env, ws);
    var ids := IdsOf(env, scope.names);
    ScopeIsExact(env, ws);
    NarrowingAppliesIff(r, scope, ids);
    if !scope.broad {
      ScopeIdsAreSuggested(env, ws);
      if ids.Ok? {
        WantedIffReadable(env, ws, r, ids.value);
        assert (exists id :: Wanted(r, ids.value, id)) ==> scope.names != [];
      }
    }
  }

  /** Without broad access the ids to go by are those of the suggested readable experiments. */
  lemma ScopeIdsAreSuggested(env: Env, ws: string)
    requires !ScopeOf(env, ws).broad
    ensures var ids := IdsOf(env, ScopeOf(env, ws).names);
            && (ids.Ok? <==> LookupsWork(env, ws))
            && (ids.Ok? ==> forall id :: id in ids.value <==> Suggested(env, ws, id))
            && (ScopeOf(env, ws).names == [] && ids.Ok? ==> ids.value == [])
  {
    var names := ScopeOf(env, ws).names;
    ScopeIsExact(env, ws);
    IdsAreExact(env, names);
    SuggestedIff(env, ws, names, IdsOf(env, names));
  }

  lemma SuggestedIff(env: Env, ws: string, names: seq<string>, ids: Result<seq<string>, ()>)
    requires forall n :: n in names <==> n in env.candidates(ws) && Opens(env, ws, Some(n))
    requires ids.Ok? ==> forall id :: id in ids.value <==> exists n :: n in names && env.idOfExperiment(n) == Ok(Some(id))
    requires ids.Ok? <==> forall n :: n in names ==> env.idOfExperiment(n).Ok?
    ensures ids.Ok? <==> LookupsWork(env, ws)
    ensures ids.Ok? ==> forall id :: id in ids.value <==> Suggested(env, ws, id)
    ensures names == [] && ids.Ok? ==> ids.value == []
  {
    if ids.Ok? && ids.value != [] {
      var id := ids.value[0];
      assert id in ids.value;
      var n :| n in names && env.idOfExperiment(n) == Ok(Some(id));
    }
  }

  lemma WantedIffReadable(env: Env, ws: string, r: Request, ids: seq<string>)
    requires forall id :: id in ids <==> Suggested(env, ws, id)
    ensures forall id :: Wanted(r, ids, id) <==> WantedOfReadable(env, ws, r, id)
  {
  }

  /** A scorer listing is a GET by one kind of selector: one readable experiment, or a list that narrows. */
  lemma ScorersApplyIff(env: Env, ws: string, r: Request)
    ensures FilterScorers(env, ws, r).1 <==>
      && r.verb == "GET" && !("experiment_id" in r.query && "experiment_ids" in r.query)
      && if "experiment_id" in r.query then exists id :: Says(r.query["experiment_id"], id) && Opens(env, ws, env.experimentOfId(id))
         else NarrowToReadable(env, ws, r).1
    ensures FilterScorers(env, ws, r).0 == r || FilterScorers(env, ws, r).0 == NarrowToReadable(env, ws, r).0
  {
    if "experiment_id" in r.query {
      forall id ensures NormalizeText(r.query["experiment_id"]) == Some(id) <==> Says(r.query["experiment_id"], id) {
        NormalizedIff(r.query["experiment_id"], id);
      }
    }
  }

  /** When a filter applies to a request that need not be normalised, by its policy. */
  ghost predicate FilterApplies(env: Env, ws: string, policy: Policy, r: Request) {
    match policy
    case ExperimentIds => exists id :: NamesId(r, "experiment_ids", id) && Opens(env, ws, env.experimentOfId(id))
    case RunIds => exists id :: NamesId(r, "run_ids", id) && Opens(env, ws, env.experimentOfRun(id))
    case ExperimentId =>
      && (BodyHas(r, "experiment_id") || "experiment_id" in r.query)
      && (BodyHas(r, "experiment_id") ==> NamesOne(r.body.value.fields["experiment_id"], id => Opens(env, ws, env.experimentOfId(id))))
      && ("experiment_id" in r.query ==> NamesOne(r.query["experiment_id"], id => Opens(env, ws, env.experimentOfId(id))))
    case AuthorizedIds => NarrowToReadable(env, ws, r).1
    case ListScorers => FilterScorers(env, ws, r).1
    case Search(kind, _) => env.search(kind, ws, r).1
    case NoPolicy | BroadOnly | GraphQLFilter => false
  }

  lemma FilterAppliesByPolicy(env: Env, ws: string, policy: Policy, r: Request)
    ensures Filtered(env, ws, policy, r).1 <==> FilterApplies(env, ws, policy, r)
  {
    match policy
    case ExperimentIds => FilterAppliesIff(r, "experiment_ids", IdReader(env, ws));
    case RunIds => FilterAppliesIff(r, "run_ids", RunReader(env, ws));
    case ExperimentId =>
      SingleFilterIsExact(r, "experiment_id", IdReader(env, ws));
      forall v ensures NamesOne(v, IdReader(env, ws)) <==> NamesOne(v, id => Opens(env, ws, env.experimentOfId(id))) {
        SameReaders(v, IdReader(env, ws), id => Opens(env, ws, env.experimentOfId(id)));
      }
    case _ =>
  }

  lemma SameReaders(v: Value, a: string -> bool, b: string -> bool)
    requires forall id :: a(id) <==> b(id)
    ensures NamesOne(v, a) <==> NamesOne(v, b)
  {
  }

  // ----- Larger grants -----

  /** Nothing else changes: the second grants at least what the first does, and suggests at least its candidates. */
  ghost predicate GrantsGrow(a: Env, b: Env) {
    && (forall q :: a.allowed(q) ==> b.allowed(q))
    && (forall ws, n :: n in a.candidates(ws) ==> n in b.candidates(ws))
    && b == a.(allowed := b.allowed, candidates := b.candidates, search := b.search)
  }

  /** Every experiment name can be looked up. */
  ghost predicate TotalStore(env: Env) {
    forall n :: env.idOfExperiment(n).Ok?
  }

  ghost predicate SearchGrows(a: Env, b: Env) {
    forall kind, ws, r :: a.search(kind, ws, r).1 ==> b.search(kind, ws, r).1
  }

  lemma ScopeGrows(a: Env, b: Env, ws: string)
    requires GrantsGrow(a, b) && TotalStore(a)
    ensures ScopeOf(a, ws).broad ==> ScopeOf(b, ws).broad
    ensures !ScopeOf(b, ws).broad ==> forall n :: n in ScopeOf(a, ws).names ==> n in ScopeOf(b, ws).names
  {
  }

  lemma IdsGrow(a: Env, b: Env, small: seq<string>, large: seq<string>)
    requires b.idOfExperiment == a.idOfExperiment && TotalStore(a) && forall n :: n in small ==> n in large
    ensures IdsOf(a, small).Ok? && IdsOf(b, large).Ok? && forall id :: id in IdsOf(a, small).value ==> id in IdsOf(b, large).value
  {
  }

  lemma NarrowingGrows(a: Env, b: Env, ws: string, r: Request)
    requires GrantsGrow(a, b) && TotalStore(a)
    ensures NarrowToReadable(a, ws, r).1 ==> NarrowToReadable(b, ws, r).1
  {
    var small, large := ScopeOf(a, ws), ScopeOf(b, ws);
    if !large.broad {
      ScopeGrows(a, b, ws);
      IdsGrow(a, b, small.names, large.names);
      assert small.names != [] ==> small.names[0] in large.names;
      NarrowingIsMonotone(r, small, IdsOf(a, small.names), large, IdsOf(b, large.names));
    }
  }

  lemma ReadersGrow(a: Env, b: Env, ws: string)
    requires GrantsGrow(a, b)
    ensures Implies(IdReader(a, ws), IdReader(b, ws)) && Implies(RunReader(a, ws), RunReader(b, ws))
    ensures forall id :: CanReadId(a, ws, id) ==> CanReadId(b, ws, id)
  {
  }

  lemma FilterGrows(a: Env, b: Env, ws: string, policy: Policy, r: Request)
    requires GrantsGrow(a, b) && SearchGrows(a, b) && TotalStore(a)
    ensures Filtered(a, ws, policy, r).1 ==> Filtered(b, ws, policy, r).1
  {
    ReadersGrow(a, b, ws);
    match policy
    case ExperimentIds => FilterIsMonotone(r, "experiment_ids", IdReader(a, ws), IdReader(b, ws));
    case RunIds => FilterIsMonotone(r, "run_ids", RunReader(a, ws), RunReader(b, ws));
    case AuthorizedIds => NarrowingGrows(a, b, ws, r);
    case ListScorers => NarrowingGrows(a, b, ws, r);
    case ExperimentId =>
    case Search(kind, _) => assert a.search(kind, ws, r).1 ==> b.search(kind, ws, r).1;
    case NoPolicy => case BroadOnly => case GraphQLFilter =>
  }

  /** A filter that narrows a request under some grants narrows it under larger ones. */
  lemma ApplyGrows(a: Env, b: Env, ws: string, policy: Policy, r: Request)
    requires GrantsGrow(a, b) && SearchGrows(a, b) && TotalStore(a)
    ensures Apply(a, ws, policy, r).1 ==> Apply(b, ws, policy, r).1
  {
    if Messaged(policy) {
      var (r1, ok) := Normalized(r, a.fields(policy), a.codec);
      assert Normalized(r, b.fields(policy), b.codec) == (r1, ok);
      FilterGrows(a, b, ws, policy, r1);
    } else {
      FilterGrows(a, b, ws, policy, r);
    }
  }
}
