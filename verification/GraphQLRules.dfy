/**
 * From a query report to authorization rules (`determine_graphql_rules`): one rule per (verb, resource,
 * policy) key, with the parsers of all its fields. The tables are arbitrary. The last part composes the
 * traversal with the derivation and states coverage in terms of the document alone.
 */
module GraphQLRules {
  import opened Wrappers
  import opened Collections
  import opened Json
  import opened GraphQLDocument
  import opened GraphQLTraversal

  datatype Policy = SingleObject | RequestFilter | RequestScope | BroadOnly

  /** The per-field tables; a missing verb reads as "get", a missing policy as broad only. */
  datatype Tables = Tables(resource: map<string, string>, verb: map<string, string>, policy: map<string, Policy>, parsers: map<string, seq<string>>)

  datatype Key = Key(verb: string, resource: string, policy: Policy)

  /** `filtered` is the GraphQL collection policy. */
  datatype Rule = Rule(verb: string, resource: string, parsers: seq<string>, filtered: bool)

  const REGISTERED_MODELS := "registeredmodels"
  const NESTED_REGISTRY_KEY := Key("get", REGISTERED_MODELS, BroadOnly)

  function PolicyOf(t: Tables, field: string): Policy {
    if field in t.policy then t.policy[field] else BroadOnly
  }

  function KeyOf(t: Tables, field: string): Key
    requires field in t.resource
  {
    Key(if field in t.verb then t.verb[field] else "get", t.resource[field], PolicyOf(t, field))
  }

  function ParsersOf(t: Tables, field: string): seq<string> {
    if PolicyOf(t, field) == SingleObject && field in t.parsers then t.parsers[field] else []
  }

  /** A root search that scopes its own result before its resolver runs. */
  predicate ScopesItself(t: Tables, field: string) {
    field in t.resource && t.resource[field] == REGISTERED_MODELS && field in t.policy && t.policy[field] == RequestScope
  }

  /** The input carries a non-empty list of experiment ids, under either spelling, camel case first. */
  predicate HasExperimentIds(f: RootField) {
    "input" in f.args && f.args["input"].Object? &&
    var input := f.args["input"].fields;
    if "experimentIds" in input && Truthy(input["experimentIds"]) then input["experimentIds"].List?
    else "experiment_ids" in input && input["experiment_ids"].List? && input["experiment_ids"].items != []
  }

  /** `_all_request_filter_occurrences_are_filterable`. */
  predicate AllFilterable(info: QueryInfo, field: string) {
    && (exists f :: f in info.inputs && f.name == field)
    && (forall f :: f in info.inputs && f.name == field ==> HasExperimentIds(f))
  }

  /** Some registry access belongs to a root field that does not scope itself. */
  predicate NeedsRegistryRule(info: QueryInfo, t: Tables) {
    info.nestedAccess && exists r :: r in info.nestedRoots && !ScopesItself(t, r)
  }

  // ----- What the rules must be -----

  /** What the tables say of a field: its resource, its verb or else "get", and its policy or else broad only. */
  ghost predicate HasKey(t: Tables, field: string, k: Key) {
    && field in t.resource && t.resource[field] == k.resource
    && (if field in t.verb then t.verb[field] == k.verb else k.verb == "get")
    && (if field in t.policy then t.policy[field] == k.policy else k.policy == BroadOnly)
  }

  /** The field has the parser: only single objects have any. */
  ghost predicate HasParser(t: Tables, field: string, p: string) {
    field in t.policy && t.policy[field] == SingleObject && field in t.parsers && p in t.parsers[field]
  }

  /** Falsy in Python. */
  ghost predicate Falsy(v: Value) {
    v == Null || v == Bool(false) || v == Number(0) || v == Text("") || v == List([]) || v == Object(map[])
  }

  /** The input gives a non-empty list as `experimentIds`, or, where that is absent or falsy, as `experiment_ids`. */
  ghost predicate NamesExperiments(f: RootField) {
    "input" in f.args && f.args["input"].Object? &&
    var input := f.args["input"].fields;
    exists ids :: ids != [] &&
      (|| ("experimentIds" in input && input["experimentIds"] == List(ids))
       || (("experimentIds" in input ==> Falsy(input["experimentIds"])) && "experiment_ids" in input && input["experiment_ids"] == List(ids)))
  }

  lemma NamesExperimentsIff(f: RootField)
    ensures HasExperimentIds(f) <==> NamesExperiments(f)
  {
    if HasExperimentIds(f) {
      var input := f.args["input"].fields;
      if "experimentIds" in input && Truthy(input["experimentIds"]) {
        assert input["experimentIds"] == List(input["experimentIds"].items);
      } else {
        assert input["experiment_ids"] == List(input["experiment_ids"].items);
      }
    }
  }

  /** The field occurs, and every occurrence names experiments. */
  ghost predicate EveryOccurrenceNames(info: QueryInfo, field: string) {
    && (exists f :: f in info.inputs && f.name == field)
    && (forall f :: f in info.inputs && f.name == field ==> NamesExperiments(f))
  }

  lemma FilterableIff(info: QueryInfo, field: string)
    ensures AllFilterable(info, field) <==> EveryOccurrenceNames(info, field)
  {
    forall f ensures HasExperimentIds(f) <==> NamesExperiments(f) {
      NamesExperimentsIff(f);
    }
  }

  /** A search of registered models with a request scope of its own. */
  ghost predicate HasOwnScope(t: Tables, field: string) {
    field in t.resource && t.resource[field] == "registeredmodels" && field in t.policy && t.policy[field] == RequestScope
  }

  ghost predicate RegistryNeeded(info: QueryInfo, t: Tables) {
    info.nestedAccess && exists r :: r in info.nestedRoots && !HasOwnScope(t, r)
  }

  /** What the rules must be for these fields, key by key. */
  ghost predicate RulesFor(rules: map<Key, Rule>, fields: set<string>, info: QueryInfo, t: Tables) {
    && (forall k :: k in rules <==>
          (exists f :: f in fields && HasKey(t, f, k)) || (k == Key("get", "registeredmodels", BroadOnly) && RegistryNeeded(info, t)))
    && (forall k :: k in rules ==> rules[k].verb == k.verb && rules[k].resource == k.resource)
    && (forall k, p :: k in rules ==> (p in rules[k].parsers <==> exists f :: f in fields && HasKey(t, f, k) && HasParser(t, f, p)))
    && (forall k :: k in rules ==> (rules[k].filtered <==>
          k.policy == RequestScope || (k.policy == RequestFilter && forall f :: f in fields && HasKey(t, f, k) ==> EveryOccurrenceNames(info, f))))
  }

  lemma TablesAgree(t: Tables, field: string, k: Key, p: string)
    requires field in t.resource
    ensures KeyOf(t, field) == k <==> HasKey(t, field, k)
    ensures p in ParsersOf(t, field) <==> HasParser(t, field, p)
  {
  }

  lemma RegistryNeededIff(info: QueryInfo, t: Tables)
    ensures NeedsRegistryRule(info, t) <==> RegistryNeeded(info, t)
  {
    forall f ensures ScopesItself(t, f) <==> HasOwnScope(t, f) { }
  }

  /** `sorted(root_fields)`, in some order: the derived rules do not depend on it. */
  method Enumerate(fields: set<string>) returns (r: seq<string>)
    ensures forall f :: f in r <==> f in fields
  {
    r := [];
    var left := fields;
    while left != {}
      invariant left <= fields && forall f :: f in r <==> f in fields - left
      decreases left
    {
      var f :| f in left;
      r := r + [f];
      left := left - {f};
    }
  }

  /** The three tables the loop fills. */
  datatype Draft = Draft(parsers: map<Key, seq<string>>, filterable: map<Key, bool>, scoped: set<Key>)

  /** The loop body for a field the tables know. */
  function AddField(d: Draft, field: string, info: QueryInfo, t: Tables): Draft
    requires field in t.resource
  {
    var key := KeyOf(t, field);
    var own := ParsersOf(t, field);
    var merged := if key in d.parsers && d.parsers[key] != [] then Dedupe(d.parsers[key] + own) else own;
    var d' := d.(parsers := d.parsers[key := merged]);
    if key.policy == RequestFilter then
      d'.(filterable := d.filterable[key := (if key in d.filterable then d.filterable[key] else true) && AllFilterable(info, field)])
    else if key.policy == RequestScope then d'.(scoped := d.scoped + {key})
    else d'
  }

  ghost predicate DraftFor(d: Draft, fields: set<string>, info: QueryInfo, t: Tables)
    requires forall f :: f in fields ==> f in t.resource
  {
    && (forall k :: k in d.parsers <==> (exists f :: f in fields && KeyOf(t, f) == k) || (k == NESTED_REGISTRY_KEY && NeedsRegistryRule(info, t)))
    && (forall k, p :: k in d.parsers ==> (p in d.parsers[k] <==> exists f :: f in fields && KeyOf(t, f) == k && p in ParsersOf(t, f)))
    && (forall k :: k in d.filterable <==> k.policy == RequestFilter && exists f :: f in fields && KeyOf(t, f) == k)
    && (forall k :: k in d.filterable ==> (d.filterable[k] <==> forall f :: f in fields && KeyOf(t, f) == k ==> AllFilterable(info, f)))
    && (forall k :: k in d.scoped <==> k.policy == RequestScope && exists f :: f in fields && KeyOf(t, f) == k)
  }

  lemma AddFieldParsers(d: Draft, field: string, fields: set<string>, info: QueryInfo, t: Tables)
    requires field in t.resource && (forall f :: f in fields ==> f in t.resource) && DraftFor(d, fields, info, t)
    ensures var d', all := AddField(d, field, info, t), fields + {field};
            && (forall k :: k in d'.parsers <==> (exists f :: f in all && KeyOf(t, f) == k) || (k == NESTED_REGISTRY_KEY && NeedsRegistryRule(info, t)))
            && (forall k, p :: k in d'.parsers ==> (p in d'.parsers[k] <==> exists f :: f in all && KeyOf(t, f) == k && p in ParsersOf(t, f)))
  {
    var d', all, key := AddField(d, field, info, t), fields + {field}, KeyOf(t, field);
    assert field in all;
    forall f | f in fields ensures f in all { }
    forall k, p | k in d'.parsers ensures p in d'.parsers[k] <==> exists f :: f in all && KeyOf(t, f) == k && p in ParsersOf(t, f) {
      if k != key {
        assert k in d.parsers;
      } else if key !in d.parsers {
        assert !exists f :: f in fields && KeyOf(t, f) == key;
      } else {
        assert p in d'.parsers[k] <==> p in d.parsers[k] || p in ParsersOf(t, field);
      }
    }
  }

  lemma AddFieldScopes(d: Draft, field: string, fields: set<string>, info: QueryInfo, t: Tables)
    requires field in t.resource && (forall f :: f in fields ==> f in t.resource) && DraftFor(d, fields, info, t)
    ensures var d', all := AddField(d, field, info, t), fields + {field};
            && (forall k :: k in d'.scoped <==> k.policy == RequestScope && exists f :: f in all && KeyOf(t, f) == k)
            && (forall k :: k in d'.filterable <==> k.policy == RequestFilter && exists f :: f in all && KeyOf(t, f) == k)
  {
    var all := fields + {field};
    assert field in all;
    forall f | f in fields ensures f in all { }
  }

  lemma AddFieldPolicies(d: Draft, field: string, fields: set<string>, info: QueryInfo, t: Tables)
    requires field in t.resource && (forall f :: f in fields ==> f in t.resource) && DraftFor(d, fields, info, t)
    ensures var d', all := AddField(d, field, info, t), fields + {field};
            forall k :: k in d'.filterable ==> (d'.filterable[k] <==> forall f :: f in all && KeyOf(t, f) == k ==> AllFilterable(info, f))
  {
    var all := fields + {field};
    assert field in all;
    forall f | f in fields ensures f in all { }
  }

  ghost function Known(fields: seq<string>, t: Tables): set<string> {
    set f | f in fields && f in t.resource
  }

  /** The loop of `determine_graphql_rules`: the three tables, and the fields without coverage. */
  method FillDraft(info: QueryInfo, fields: seq<string>, t: Tables) returns (draft: Draft, unknown: seq<string>)
    ensures DraftFor(draft, Known(fields, t), info, t)
    ensures forall f :: f in unknown <==> f in fields && f !in t.resource
  {
    draft := Draft(if NeedsRegistryRule(info, t) then map[NESTED_REGISTRY_KEY := []] else map[], map[], {});
    unknown := [];
    for i := 0 to |fields|
      invariant forall f :: f in unknown <==> f in fields[..i] && f !in t.resource
      invariant DraftFor(draft, Known(fields[..i], t), info, t)
    {
      var field := fields[i];
      assert fields[..i + 1] == fields[..i] + [field];
      if field !in t.resource {
        unknown := unknown + [field];
        assert Known(fields[..i + 1], t) == Known(fields[..i], t);
      } else {
        AddFieldParsers(draft, field, Known(fields[..i], t), info, t);
        AddFieldScopes(draft, field, Known(fields[..i], t), info, t);
        AddFieldPolicies(draft, field, Known(fields[..i], t), info, t);
        draft := AddField(draft, field, info, t);
        assert Known(fields[..i + 1], t) == Known(fields[..i], t) + {field};
      }
    }
    assert fields[..|fields|] == fields;
  }

  /** The returned list, one rule per key. */
  function BuildRules(d: Draft): map<Key, Rule> {
    map k | k in d.parsers :: Rule(k.verb, k.resource, d.parsers[k], k in d.scoped || (k in d.filterable && d.filterable[k]))
  }

  lemma DraftGivesRules(d: Draft, fields: set<string>, info: QueryInfo, t: Tables)
    requires (forall f :: f in fields ==> f in t.resource) && DraftFor(d, fields, info, t)
    ensures RulesFor(BuildRules(d), fields, info, t)
  {
    var rules := BuildRules(d);
    RegistryNeededIff(info, t);
    forall k ensures (exists f :: f in fields && KeyOf(t, f) == k) <==> SomeHasKey(fields, k, t) {
      SameFields(fields, k, t);
    }
    forall k, p | k in rules ensures p in rules[k].parsers <==> exists f :: f in fields && HasKey(t, f, k) && HasParser(t, f, p) {
      SameParsers(fields, k, p, t);
    }
    forall k | k in rules
      ensures rules[k].filtered <==>
        k.policy == RequestScope || (k.policy == RequestFilter && forall f :: f in fields && HasKey(t, f, k) ==> EveryOccurrenceNames(info, f))
    {
      SameFilter(d, fields, k, info, t);
    }
  }

  ghost predicate SomeHasKey(fields: set<string>, k: Key, t: Tables) {
    exists f :: f in fields && HasKey(t, f, k)
  }

  lemma SameFields(fields: set<string>, k: Key, t: Tables)
    requires forall f :: f in fields ==> f in t.resource
    ensures (exists f :: f in fields && KeyOf(t, f) == k) <==> SomeHasKey(fields, k, t)
  {
    forall f | f in fields ensures KeyOf(t, f) == k <==> HasKey(t, f, k) {
      TablesAgree(t, f, k, "");
    }
  }

  lemma SameParsers(fields: set<string>, k: Key, p: string, t: Tables)
    requires forall f :: f in fields ==> f in t.resource
    ensures (exists f :: f in fields && KeyOf(t, f) == k && p in ParsersOf(t, f)) <==> exists f :: f in fields && HasKey(t, f, k) && HasParser(t, f, p)
  {
    forall f | f in fields ensures (KeyOf(t, f) == k <==> HasKey(t, f, k)) && (p in ParsersOf(t, f) <==> HasParser(t, f, p)) {
      TablesAgree(t, f, k, p);
    }
  }

  lemma SameFilter(d: Draft, fields: set<string>, k: Key, info: QueryInfo, t: Tables)
    requires (forall f :: f in fields ==> f in t.resource) && DraftFor(d, fields, info, t) && k in d.parsers
    requires k.policy == RequestScope || k.policy == RequestFilter ==> exists f :: f in fields && KeyOf(t, f) == k
    ensures k in d.scoped || (k in d.filterable && d.filterable[k]) <==>
      k.policy == RequestScope || (k.policy == RequestFilter && forall f :: f in fields && HasKey(t, f, k) ==> EveryOccurrenceNames(info, f))
  {
    forall f | f in fields ensures (KeyOf(t, f) == k <==> HasKey(t, f, k)) && (AllFilterable(info, f) <==> EveryOccurrenceNames(info, f)) {
      TablesAgree(t, f, k, "");
      FilterableIff(info, f);
    }
  }

  lemma EmptyDraft(d: Draft, fields: set<string>, info: QueryInfo, t: Tables)
    requires (forall f :: f in fields ==> f in t.resource) && DraftFor(d, fields, info, t)
    ensures d.parsers == map[] <==> fields == {} && !NeedsRegistryRule(info, t)
  {
    if f :| f in fields {
      assert KeyOf(t, f) in d.parsers;
    }
    if NeedsRegistryRule(info, t) {
      assert NESTED_REGISTRY_KEY in d.parsers;
    }
    if k :| k in d.parsers { }
  }

  /** Some root field reported is unknown, or there is no root field and no need of the registry rule. */
  ghost predicate NoRules(info: QueryInfo, t: Tables) {
    (exists f :: f in info.rootFields && f !in t.resource) || (info.rootFields == {} && !RegistryNeeded(info, t))
  }

  /**
   * `determine_graphql_rules`: nothing if a field is unknown or there is nothing to require, otherwise the
   * rules described by `RulesFor`.
   */
  method DetermineRules(info: QueryInfo, t: Tables) returns (rules: Option<map<Key, Rule>>)
    ensures rules.None? <==> NoRules(info, t)
    ensures rules.Some? ==> RulesFor(rules.value, info.rootFields, info, t)
  {
    RegistryNeededIff(info, t);
    var fields := Enumerate(info.rootFields);
    var draft, unknown := FillDraft(info, fields, t);
    if unknown != [] {
      assert unknown[0] in unknown;
      return None;
    }
    assert Known(fields, t) == info.rootFields;
    EmptyDraft(draft, info.rootFields, info, t);
    if draft.parsers == map[] {
      return None;
    }
    DraftGivesRules(draft, info.rootFields, info, t);
    return Some(BuildRules(draft));
  }

  // ----- From the document to the rules -----

  /** The rule asks for the field's own verb, resource and parsers, and if it filters by ids the field names some. */
  ghost predicate Asks(rules: map<Key, Rule>, k: Key, f: RootField, t: Tables) {
    && k in rules && HasKey(t, f.name, k) && rules[k].verb == k.verb && rules[k].resource == k.resource
    && (forall p :: HasParser(t, f.name, p) ==> p in rules[k].parsers)
    && (rules[k].filtered ==> k.policy == RequestScope || (k.policy == RequestFilter && NamesExperiments(f)))
  }

  /** This root field is covered by a rule. */
  ghost predicate Covered(f: RootField, rules: map<Key, Rule>, t: Tables) {
    exists k :: Asks(rules, k, f, t)
  }

  lemma ReportedFieldIsCovered(f: RootField, info: QueryInfo, rules: map<Key, Rule>, t: Tables)
    requires f in info.inputs && Coherent(info)
    requires (forall f :: f in info.rootFields ==> f in t.resource) && RulesFor(rules, info.rootFields, info, t)
    ensures Covered(f, rules, t)
  {
    assert f.name in info.rootFields;
    var key := KeyOf(t, f.name);
    assert HasKey(t, f.name, key);
    forall p | HasParser(t, f.name, p) ensures p in rules[key].parsers { }
    if rules[key].filtered && key.policy == RequestFilter {
      assert EveryOccurrenceNames(info, f.name);
    }
    assert Asks(rules, key, f, t);
  }

  /** Some chain of the operation reaches the root field. */
  ghost predicate ReachesRootField(frags: Fragments, start: seq<Selection>, f: RootField) {
    exists a :: IsRootField(a, f) && Reaches(frags, start, a)
  }

  /** Some chain of the operation reaches a registry field belonging to the root field. */
  ghost predicate ReachesRegistryOf(frags: Fragments, start: seq<Selection>, root: string) {
    exists a :: IsRegistryOf(a, root) && Reaches(frags, start, a)
  }

  /** Every root field of every operation is covered, where no fragment is spread both at root level and below a field. */
  ghost predicate RootFieldsCovered(defs: seq<Definition>, frags: Fragments, rules: map<Key, Rule>, t: Tables) {
    forall start, f ::
      IsOperation(defs, start) && RootAndNestedFragmentsDisjoint(frags, start) && ReachesRootField(frags, start, f) ==> Covered(f, rules, t)
  }

  ghost predicate HasRegistryRule(rules: map<Key, Rule>) {
    Key("get", "registeredmodels", BroadOnly) in rules
  }

  /**
   * Every root field that does not scope itself and has registry access forces the broad registry rule, where
   * each fragment is spread in one place.
   */
  ghost predicate RegistryGuarded(defs: seq<Definition>, frags: Fragments, rules: map<Key, Rule>, t: Tables) {
    forall start, root ::
      IsOperation(defs, start) && FragmentsHaveOnePlace(frags, start) && ReachesRegistryOf(frags, start, root) && !HasOwnScope(t, root)
      ==> HasRegistryRule(rules)
  }

  lemma ReportCoversRoots(defs: seq<Definition>, frags: Fragments, info: QueryInfo, rules: map<Key, Rule>, t: Tables)
    requires Exact(defs, frags, info)
    requires (forall f :: f in info.rootFields ==> f in t.resource) && RulesFor(rules, info.rootFields, info, t)
    ensures RootFieldsCovered(defs, frags, rules, t)
  {
    forall start, f | IsOperation(defs, start) && RootAndNestedFragmentsDisjoint(frags, start) && ReachesRootField(frags, start, f)
      ensures Covered(f, rules, t)
    {
      DisjointReportsRootFields(frags, start, f);
      assert SomeOperationReports(defs, frags, f);
      ReportedFieldIsCovered(f, info, rules, t);
    }
  }

  lemma ReportGuardsRegistry(defs: seq<Definition>, frags: Fragments, info: QueryInfo, rules: map<Key, Rule>, t: Tables)
    requires Exact(defs, frags, info) && RulesFor(rules, info.rootFields, info, t)
    ensures RegistryGuarded(defs, frags, rules, t)
  {
    forall start, root | IsOperation(defs, start) && FragmentsHaveOnePlace(frags, start) && ReachesRegistryOf(frags, start, root) && !HasOwnScope(t, root)
      ensures HasRegistryRule(rules)
    {
      OnePlaceReportsRegistry(frags, start, root);
      assert SomeOperationOwns(defs, frags, root);
      assert root in info.nestedRoots;
    }
  }

  /**
   * On any document, the registry rule is there exactly if some root field needs that very rule, or some root
   * field that does not scope itself has registry access by a chain that expands fragments where they are
   * first met.
   */
  lemma RegistryRuleIff(defs: seq<Definition>, frags: Fragments, info: QueryInfo, rules: map<Key, Rule>, t: Tables)
    requires Defines(defs, frags) && Exact(defs, frags, info) && RulesFor(rules, info.rootFields, info, t)
    ensures HasRegistryRule(rules) <==>
      || (exists f :: f in info.rootFields && HasKey(t, f, Key("get", "registeredmodels", BroadOnly)))
      || exists root :: SomeOperationOwns(defs, frags, root) && !HasOwnScope(t, root)
  {
    RegistryNeededBy(defs, frags, info, t);
    assert HasRegistryRule(rules) <==> Key("get", "registeredmodels", BroadOnly) in rules;
  }

  lemma RegistryNeededBy(defs: seq<Definition>, frags: Fragments, info: QueryInfo, t: Tables)
    requires Exact(defs, frags, info)
    ensures RegistryNeeded(info, t) <==> exists root :: SomeOperationOwns(defs, frags, root) && !HasOwnScope(t, root)
  {
    if root :| SomeOperationOwns(defs, frags, root) && !HasOwnScope(t, root) {
      assert root in info.nestedRoots;
    }
  }

  /**
   * Without one place for each fragment the registry rule can be missing: `g` does not scope itself and reaches
   * the registry, but the fragment it shares is met first below `s`, which does.
   */
  lemma SharedFragmentCanDropRegistryRule(rules: map<Key, Rule>, t: Tables)
    requires HasOwnScope(t, "s") && !HasOwnScope(t, "g") && "g" in t.resource
    requires forall f :: f == "g" || f == "s" ==> !HasKey(t, f, Key("get", "registeredmodels", BroadOnly))
    ensures var (frags, start) := HidingRegistry();
            var info := ReportOf(frags, start);
            && ReachesRegistryOf(frags, start, "g")
            && (forall f :: f in info.rootFields ==> f in t.resource)
            && (RulesFor(rules, info.rootFields, info, t) ==> !HasRegistryRule(rules))
  {
    var (frags, start) := HidingRegistry();
    SharedFragmentCanHideRegistryOwner();
    assert IsRegistryOf(Spot(Below("g"), Field(NESTED_REGISTRY_FIELD, map[], [])), "g");
  }

  /** Root fields are covered and registry access is guarded, fragments being what the document defines. */
  ghost predicate Authorizes(defs: seq<Definition>, rules: map<Key, Rule>, t: Tables) {
    exists frags :: Defines(defs, frags) && RootFieldsCovered(defs, frags, rules, t) && RegistryGuarded(defs, frags, rules, t)
  }

  ghost predicate NothingToAsk(defs: seq<Definition>, t: Tables) {
    exists frags, info :: Defines(defs, frags) && Exact(defs, frags, info) && NoRules(info, t)
  }

  /** Exact reports of one document agree on what matters. */
  lemma SameReports(defs: seq<Definition>, frags: Fragments, a: QueryInfo, b: QueryInfo)
    requires Exact(defs, frags, a) && Exact(defs, frags, b)
    ensures a.rootFields == b.rootFields && a.nestedRoots == b.nestedRoots && a.nestedAccess == b.nestedAccess
  {
    forall name ensures name in a.rootFields <==> name in b.rootFields {
      assert (exists f :: f in a.inputs && f.name == name) <==> exists f :: f in b.inputs && f.name == name;
    }
    forall r ensures r in a.nestedRoots <==> r in b.nestedRoots { }
  }

  lemma NothingElseIsReported(defs: seq<Definition>, info: QueryInfo, t: Tables)
    requires exists frags :: Defines(defs, frags) && Exact(defs, frags, info)
    requires NothingToAsk(defs, t)
    ensures NoRules(info, t)
  {
    var frags :| Defines(defs, frags) && Exact(defs, frags, info);
    var frags', info' :| Defines(defs, frags') && Exact(defs, frags', info') && NoRules(info', t);
    FragmentsAreUnique(defs, frags, frags');
    SameReports(defs, frags, info, info');
    SameNoRules(info', info, t);
  }

  lemma SameNoRules(a: QueryInfo, b: QueryInfo, t: Tables)
    requires a.rootFields == b.rootFields && a.nestedRoots == b.nestedRoots && a.nestedAccess == b.nestedAccess
    ensures NoRules(a, t) ==> NoRules(b, t)
  {
  }

  /** The rules of a GraphQL request, from its parsed document. */
  method RulesForDocument(defs: seq<Definition>, t: Tables) returns (rules: Option<map<Key, Rule>>)
    ensures rules.Some? ==> Authorizes(defs, rules.value, t)
    ensures rules.None? <==> NothingToAsk(defs, t)
  {
    var info := ExtractQueryInfo(defs);
    if info.rootFields == {} && !info.nestedAccess {
      return None;
    }
    rules := DetermineRules(info, t);
    if rules.Some? {
      if NothingToAsk(defs, t) {
        NothingElseIsReported(defs, info, t);
      }
      ghost var frags :| Defines(defs, frags) && Exact(defs, frags, info);
      ReportCoversRoots(defs, frags, info, rules.value, t);
      ReportGuardsRegistry(defs, frags, info, rules.value, t);
    }
  }
}
