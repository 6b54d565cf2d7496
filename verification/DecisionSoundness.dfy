/**
 * What an accepted request has been shown to satisfy, rule by rule, over the whole run: no rule denies, the
 * workspace is known wherever needed, and every RBAC rule was granted for a reason, broadly, by name, by a
 * filter, or by a declared fallback, with its gateway dependencies in place. For filters the reason is about
 * the request that goes on, with its body, whether or not the body has been read by then; exactly when that
 * holds is part of it. The body itself is read at most once.
 */
module DecisionSoundness {
  import opened Wrappers
  import opened Strings
  import opened Json
  import opened Requests
  import opened GetBody
  import opened Narrowing
  import opened IdFilters
  import opened ReadIds
  import opened Authority
  import opened Gateway
  import opened GatewayDependencies
  import opened Decision
  import opened UseChecks
  import opened RuleAcceptance

  // ----- What an applied filter leaves -----

  predicate IdPolicy(policy: Policy) {
    policy.ExperimentIds? || policy.RunIds? || policy.ExperimentId?
  }

  /** The id belongs to an experiment the caller may read. */
  ghost predicate IdOfReadable(env: Env, ws: string, id: string) {
    exists n :: MayReadExperiment(env, ws, n) && env.idOfExperiment(n) == Ok(Some(id))
  }

  /** The source the handler reads carries these ids. */
  ghost predicate CarriesIds(env: Env, r: Request, ids: seq<string>) {
    && HandlerIds(r) == Some(TextList(ids))
    && (r.verb == "GET" || r.verb == "POST" ==> HandlerReads(r, IdFieldOf(AuthorizedIds), env.codec) == Is(TextList(ids)))
  }

  /** Broad access, or the handler reads a non-empty list of ids of readable experiments. */
  ghost predicate WithinScope(env: Env, ws: string, r: Request) {
    || env.allowed(Review("experiments", "get", ws, None, None))
    || exists ids :: ids != [] && CarriesIds(env, r, ids) && forall id :: id in ids ==> IdOfReadable(env, ws, id)
  }

  /** The whole request, as its handler reads it, is within what the caller may read. */
  ghost predicate Scoped(env: Env, ws: string, policy: Policy, r: Request) {
    var w := Whole(r);
    match policy
    case ExperimentIds | RunIds | ExperimentId => Covered(r, IdFieldOf(policy), env.codec, ReaderOf(env, ws, policy))
    case AuthorizedIds => WithinScope(env, ws, w)
    case ListScorers =>
      w.verb == "GET" && if "experiment_id" in w.query then
        NormalizeText(w.query["experiment_id"]).Some? && CanReadId(env, ws, NormalizeText(w.query["experiment_id"]).value)
      else WithinScope(env, ws, w)
    case Search(kind, _) => exists from, to :: env.search(kind, ws, from) == (to, true) && Whole(to) == w
    case NoPolicy | BroadOnly | GraphQLFilter => false
  }

  /** The id fields of the messages take strings as they are. */
  ghost predicate StringIds(codec: Codec) {
    TakesLists(codec, IdFieldOf(ExperimentIds)) && TakesLists(codec, IdFieldOf(RunIds)) && TakesText(codec, IdFieldOf(ExperimentId))
  }

  /** The request an id filter acts on: as it is, or with its body loaded for a second try. */
  function ActedOn(env: Env, ws: string, policy: Policy, r: Request): Request {
    if Apply(env, ws, policy, r).1 then r else Load(r, false)
  }

  /** The filter of an id policy would let something through that the caller may not read. */
  predicate Leaks(env: Env, ws: string, policy: Policy, r: Request) {
    var from, f, canRead := ActedOn(env, ws, policy, r), IdFieldOf(policy), ReaderOf(env, ws, policy);
    match policy
    case ExperimentIds | RunIds => ListLeaks(from, f, env.codec, canRead)
    case ExperimentId => SingleLeaks(from, f, env.codec, canRead)
    case _ => false
  }

  lemma FilteredIdsAreScopedIff(env: Env, ws: string, policy: Policy, r: Request)
    requires StringIds(env.codec) && IdPolicy(policy) && Apply(env, ws, policy, r).1
    ensures Scoped(env, ws, policy, Apply(env, ws, policy, r).0) <==> !Leaks(env, ws, policy, r)
  {
    var f, canRead := IdFieldOf(policy), ReaderOf(env, ws, policy);
    if policy.ExperimentId? {
      FilteredSingleIsCoveredIff(r, f, env.codec, canRead);
    } else {
      FilteredListIsCoveredIff(r, f, env.codec, canRead);
    }
  }

  lemma ScopeIsReadable(env: Env, ws: string, id: string)
    requires !ScopeOf(env, ws).broad && IdsOf(env, ScopeOf(env, ws).names).Ok? && id in IdsOf(env, ScopeOf(env, ws).names).value
    ensures IdOfReadable(env, ws, id)
  {
    var names := ScopeOf(env, ws).names;
    var n :| n in names && env.idOfExperiment(n) == Ok(Some(id));
    assert MayReadExperiment(env, ws, n);
  }

  lemma CarriedIsRead(env: Env, r: Request, ids: seq<string>)
    requires TakesLists(env.codec, IdFieldOf(AuthorizedIds))
    requires HandlerIds(r) == Some(TextList(ids)) && !BodyHas(r, "experimentIds")
    ensures CarriesIds(env, r, ids)
  {
  }

  lemma NarrowedIsWithinScope(env: Env, ws: string, r: Request)
    requires StringIds(env.codec) && NarrowToReadable(env, ws, r).1
    ensures WithinScope(env, ws, NarrowToReadable(env, ws, r).0)
  {
    var scope := ScopeOf(env, ws);
    var allowed := IdsOf(env, scope.names);
    if !scope.broad {
      NarrowingIsExact(r, scope, allowed);
      var r' := NarrowToScope(r, scope, allowed).0;
      var ids :| Narrowed(r, r', allowed.value, ids);
      NarrowedIdsAreReadable(env, ws, r, r', ids);
    }
  }

  lemma NarrowedIdsAreReadable(env: Env, ws: string, r: Request, r': Request, ids: seq<string>)
    requires StringIds(env.codec) && !ScopeOf(env, ws).broad && IdsOf(env, ScopeOf(env, ws).names).Ok?
    requires Narrowed(r, r', IdsOf(env, ScopeOf(env, ws).names).value, ids)
    ensures WithinScope(env, ws, r')
  {
    CarriedIsRead(env, r', ids);
    forall id | id in ids ensures IdOfReadable(env, ws, id) {
      assert Wanted(r, IdsOf(env, ScopeOf(env, ws).names).value, id);
      ScopeIsReadable(env, ws, id);
    }
  }

  lemma NarrowingKeepsTheRest(r: Request, scope: Scope, allowed: Result<seq<string>, ()>)
    ensures var r' := NarrowToScope(r, scope, allowed).0;
            r'.verb == r.verb && ("experiment_id" in r'.query <==> "experiment_id" in r.query) && (Unread(r') <==> Unread(r))
  {
    if NarrowToScope(r, scope, allowed).1 && !scope.broad {
      RewriteKeepsTheRest(r, Sort(Selected(r, allowed.value)));
    }
  }

  lemma WholeKeepsScope(env: Env, ws: string, r: Request)
    requires WithinScope(env, ws, r) && (Unread(r) ==> r.verb != "POST")
    ensures WithinScope(env, ws, Whole(r))
  {
    forall ids | CarriesIds(env, r, ids) ensures CarriesIds(env, Whole(r), ids) { }
  }

  lemma NarrowedIsWithinScopeWhole(env: Env, ws: string, r: Request)
    requires StringIds(env.codec) && NarrowToReadable(env, ws, r).1 && (Unread(r) ==> r.verb != "POST")
    ensures WithinScope(env, ws, Whole(NarrowToReadable(env, ws, r).0))
  {
    NarrowedIsWithinScope(env, ws, r);
    NarrowingKeepsTheRest(r, ScopeOf(env, ws), IdsOf(env, ScopeOf(env, ws).names));
    WholeKeepsScope(env, ws, NarrowToReadable(env, ws, r).0);
  }

  /** With the body read, or a GET normalised, another applied filter leaves a request within what the caller may read. */
  lemma FilteredIsScoped(env: Env, ws: string, policy: Policy, r: Request)
    requires StringIds(env.codec) && !IdPolicy(policy) && Filtered(env, ws, policy, r).1 && (Unread(r) ==> Messaged(policy) && r.verb == "GET")
    ensures Scoped(env, ws, policy, Filtered(env, ws, policy, r).0)
  {
    match policy
    case AuthorizedIds => NarrowedIsWithinScopeWhole(env, ws, r);
    case ListScorers =>
      if "experiment_id" !in r.query {
        NarrowedIsWithinScopeWhole(env, ws, r);
        NarrowingKeepsTheRest(r, ScopeOf(env, ws), IdsOf(env, ScopeOf(env, ws).names));
      }
    case Search(kind, _) => assert env.search(kind, ws, r) == (Filtered(env, ws, policy, r).0, true);
    case NoPolicy => case BroadOnly => case GraphQLFilter =>
  }

  lemma NormalizedUnreadIsGet(r: Request, fields: seq<Field>, codec: Codec)
    requires Unread(r) ==> r.verb == "GET"
    ensures Unread(Normalized(r, fields, codec).0) ==> Normalized(r, fields, codec).0.verb == "GET"
  {
  }

  lemma AppliedIsScoped(env: Env, ws: string, policy: Policy, r: Request)
    requires StringIds(env.codec) && !IdPolicy(policy) && Apply(env, ws, policy, r).1
    requires Unread(r) ==> policy.Search? || (Messaged(policy) && r.verb == "GET")
    ensures Scoped(env, ws, policy, Apply(env, ws, policy, r).0)
  {
    var r1 := if Messaged(policy) then Normalized(r, env.fields(policy), env.codec).0 else r;
    if policy.Search? {
      assert env.search(policy.kind, ws, r1) == (Apply(env, ws, policy, r).0, true);
    } else {
      NormalizedUnreadIsGet(r, env.fields(policy), env.codec);
      FilteredIsScoped(env, ws, policy, r1);
    }
  }

  /** An id filter is tried on the request, then on the request with its body loaded. */
  lemma IdAttempt(env: Env, ws: string, policy: Policy, r: Request)
    requires IdPolicy(policy) && Attempt(env, ws, policy, r).1
    ensures var from := ActedOn(env, ws, policy, r);
            Apply(env, ws, policy, from) == Attempt(env, ws, policy, r) && (Leaks(env, ws, policy, from) <==> Leaks(env, ws, policy, r))
  {
    assert !Apply(env, ws, policy, r).1 ==> Apply(env, ws, policy, r).0 == r;
  }

  /**
   * A request that passes a filter is, as its handler reads it, within what the caller may read, exactly unless
   * the filter of an id policy leaks: the query sufficed, and the handler finds in the body no id, or, the body
   * unread, a string, or of the other spelling, one that may not be read; or the handler of a GET finds none in
   * the query.
   */
  lemma AttemptIsScopedIff(env: Env, ws: string, policy: Policy, r: Request)
    requires StringIds(env.codec) && Attempt(env, ws, policy, r).1
    ensures Scoped(env, ws, policy, Attempt(env, ws, policy, r).0) <==> !Leaks(env, ws, policy, r)
  {
    if IdPolicy(policy) {
      IdAttempt(env, ws, policy, r);
      FilteredIdsAreScopedIff(env, ws, policy, ActedOn(env, ws, policy, r));
    } else {
      OtherAttemptIsScoped(env, ws, policy, r);
    }
  }

  lemma OtherAttemptIsScoped(env: Env, ws: string, policy: Policy, r: Request)
    requires StringIds(env.codec) && !IdPolicy(policy) && Attempt(env, ws, policy, r).1
    ensures Scoped(env, ws, policy, Attempt(env, ws, policy, r).0)
  {
    var from := if Messaged(policy) then Load(r, true) else r;
    LoadedIsWhole(r);
    if Apply(env, ws, policy, from).1 {
      AppliedIsScoped(env, ws, policy, from);
    } else {
      var first := Apply(env, ws, policy, from).0;
      LoadedIsWhole(first);
      AppliedIsScoped(env, ws, policy, Load(first, false));
    }
  }

  // ----- Why a rule is met -----

  /** The fallback of GraphQL rules: at once when not hybrid, otherwise only for a missing reference. */
  ghost predicate GraphQLFallback(env: Env, rule: Rule, r: Request) {
    rule.policy.GraphQLFilter? && (NamedOrFiltered(rule) ==> Lacks(env, rule, r))
  }

  /** The request as the filter first sees it: a budget check or the parsers may have loaded it. */
  function FilterSees(rule: Rule, r: Request): Request {
    if BudgetRule(rule) || rule.parsers != [] then Load(r, false) else r
  }

  /** Why an RBAC rule is met on a request, where `checked` is the request handed to the dependency check. */
  ghost predicate Granted(env: Env, ws: string, rule: Rule, r: Request, checked: Request)
    requires rule.verb.Some? && rule.resource.Some?
  {
    || Broad(env, ws, rule)
    || NamesAllowed(env, ws, rule, r)
    || Scoped(env, ws, rule.policy, checked)
    || Leaks(env, ws, rule.policy, FilterSees(rule, r))
    || GraphQLFallback(env, rule, r)
  }

  ghost predicate Exempt(env: Env, rule: Rule, r: Request) {
    rule.allowIfMissing && Lacks(env, rule, r)
  }

  /** Use is permitted of what the check finds, and of every dependency unless the check misses one; this request goes on. */
  ghost predicate UseMet(env: Env, ws: string, rule: Rule, r: Request, r': Request) {
    UsePasses(env, ws, rule, r, r') && (DependenciesUsable(env, ws, rule, r) || Misses(env, rule, r))
  }

  /** Granted, with gateway dependencies in place; or exempt, and then nothing else is checked. */
  ghost predicate RbacMet(env: Env, ws: string, rule: Rule, r: Request, r': Request) {
    && rule.verb.Some? && rule.resource.Some? && rule.resource.value != ""
    && (|| (Exempt(env, rule, r) && r' == Load(r, false))
        || exists checked :: Granted(env, ws, rule, r, checked) && UseMet(env, ws, rule, checked, r'))
  }

  ghost predicate RuleMet(env: Env, ws: Option<string>, rule: Rule, r: Request, r': Request) {
    && !rule.deny
    && (rule.requiresWorkspace || rule.verb.Some? ==> ws.Some?)
    && (if rule.verb.Some? then RbacMet(env, ws.value, rule, r, r')
        else r' == r && (rule.workspaceFilter || (rule.workspaceAccess && ws.Some? && SeesWorkspace(env, ws.value))))
  }

  /** Past the checks by name and by filter, the grant has a reason. */
  lemma GrantHasReason(env: Env, ws: string, rule: Rule, r: Request, checked: Request)
    requires StringIds(env.codec) && rule.verb.Some? && rule.resource.Some? && Checked(env, ws, rule, r, checked)
    ensures Granted(env, ws, rule, r, checked)
  {
    if !NamesAllowed(env, ws, rule, r) && !rule.policy.GraphQLFilter? {
      NarrowsIff(env, ws, rule.policy, FilterSees(rule, r), checked);
      AttemptIsScopedIff(env, ws, rule.policy, FilterSees(rule, r));
    }
  }

  lemma UseIsMet(env: Env, ws: string, rule: Rule, checked: Request, r': Request)
    requires CheckUse(env, ws, rule, checked) == Ok(r')
    ensures UseMet(env, ws, rule, checked, r')
  {
    UsePassesIff(env, ws, rule, checked, r');
    PassingIsEnough(env, ws, rule, checked);
  }

  lemma RbacIsMet(env: Env, ws: string, rule: Rule, r: Request, r': Request)
    requires StringIds(env.codec) && rule.verb.Some? && RbacAccepts(env, ws, rule, r, r')
    ensures RbacMet(env, ws, rule, r, r')
  {
    if Broad(env, ws, rule) {
      UseIsMet(env, ws, rule, BroadlyChecked(env, rule, r), r');
    } else if !Exempt(env, rule, r) {
      var checked :| Checked(env, ws, rule, r, checked) && CheckUse(env, ws, rule, checked) == Ok(r');
      GrantHasReason(env, ws, rule, r, checked);
      UseIsMet(env, ws, rule, checked, r');
    }
  }

  lemma RuleIsMet(env: Env, ws: Option<string>, rule: Rule, r: Request)
    requires StringIds(env.codec) && CheckRule(env, ws, rule, r).Ok?
    ensures RuleMet(env, ws, rule, r, CheckRule(env, ws, rule, r).value)
  {
    var r' := CheckRule(env, ws, rule, r).value;
    RuleAcceptsIff(env, ws, rule, r, r');
    if rule.verb.Some? {
      RbacIsMet(env, ws.value, rule, r, r');
    }
  }

  /** Loading the body afterwards changes nothing about it. */
  lemma ScopeSurvivesLoading(env: Env, ws: string, policy: Policy, r: Request)
    ensures Scoped(env, ws, policy, Load(r, false)) <==> Scoped(env, ws, policy, r)
  {
    LoadingKeepsTheWhole(r, false);
  }

  /** The rule was met by its filter: neither broadly, nor by name, nor by an exemption or fallback. */
  ghost predicate MetByFilter(env: Env, ws: string, rule: Rule, r: Request) {
    && rule.verb.Some? && rule.resource.Some? && !rule.policy.GraphQLFilter?
    && !Broad(env, ws, rule) && !NamesAllowed(env, ws, rule, r) && !Exempt(env, rule, r)
  }

  /**
   * When a rule is met by its filter, the request that goes on is, as its handler reads it, within what the
   * caller may read, exactly unless the filter leaks.
   */
  lemma FilteredRuleIsScopedIff(env: Env, ws: string, rule: Rule, r: Request)
    requires StringIds(env.codec) && MetByFilter(env, ws, rule, r) && CheckRbac(env, ws, rule, r).Ok?
    ensures Scoped(env, ws, rule.policy, CheckRbac(env, ws, rule, r).value) <==>
      !Leaks(env, ws, rule.policy, FilterSees(rule, r))
  {
    var r' := CheckRbac(env, ws, rule, r).value;
    RbacAcceptsIff(env, ws, rule, r, r');
    var checked :| Checked(env, ws, rule, r, checked) && CheckUse(env, ws, rule, checked) == Ok(r');
    NarrowsIff(env, ws, rule.policy, FilterSees(rule, r), checked);
    AttemptIsScopedIff(env, ws, rule.policy, FilterSees(rule, r));
    UseOnlyLoads(env, ws, rule, checked);
    ScopeSurvivesLoading(env, ws, rule.policy, checked);
  }

  // ----- What a filter misses -----

  /** A listing by experiment ids, of a caller that may not list them all. */
  predicate ListsById(env: Env, ws: string, rule: Rule) {
    && rule.verb.Some? && rule.resource == Some("experiments") && rule.parsers == [] && rule.policy.ExperimentIds?
    && !rule.deny && !Broad(env, ws, rule)
  }

  /** A POST whose query names an experiment that may be read, where another may not. */
  predicate QueryNamesMine(env: Env, ws: string, r: Request, mine: string, other: string) {
    && Clean(mine) && Clean(other) && CanReadId(env, ws, mine) && !CanReadId(env, ws, other)
    && r.verb == "POST" && r.query == map["experiment_ids" := Text(mine)]
  }

  /** The listing is accepted, and its handler reads the id that may not be read. */
  ghost predicate GetsThrough(env: Env, ws: string, rule: Rule, r: Request, other: string) {
    && CheckRule(env, Some(ws), rule, r).Ok?
    && HandlerReads(Whole(CheckRule(env, Some(ws), rule, r).value), IdFieldOf(ExperimentIds), env.codec) == Is(TextList([other]))
    && !Scoped(env, ws, rule.policy, CheckRule(env, Some(ws), rule, r).value)
  }

  /** The body, not read yet, names the other experiment. */
  lemma UnreadBodyIsNotFiltered(env: Env, ws: string, rule: Rule, r: Request, mine: string, other: string)
    requires StringIds(env.codec) && ListsById(env, ws, rule) && QueryNamesMine(env, ws, r, mine, other)
    requires r.body.None? && r.loader == Some(Some(Object(map["experiment_ids" := TextList([other])])))
    ensures GetsThrough(env, ws, rule, r, other)
  {
    var f := IdFieldOf(ExperimentIds);
    OneSpelling(env, Whole(r), r.loader.value.value.fields, f.name, TextList([other]));
    HiddenIdGetsThrough(env, ws, rule, r, mine, other);
  }

  /** The body names it under the other spelling. */
  lemma AliasBodyIsNotFiltered(env: Env, ws: string, rule: Rule, r: Request, mine: string, other: string)
    requires StringIds(env.codec) && ListsById(env, ws, rule) && QueryNamesMine(env, ws, r, mine, other)
    requires r.body == Some(Object(map["experimentIds" := TextList([other])]))
    ensures GetsThrough(env, ws, rule, r, other)
  {
    var f := IdFieldOf(ExperimentIds);
    OneSpelling(env, r, r.body.value.fields, f.jsonName, TextList([other]));
    HiddenIdGetsThrough(env, ws, rule, r, mine, other);
  }

  /** The body is a string that decodes to an object that names it. */
  lemma StringBodyIsNotFiltered(env: Env, ws: string, rule: Rule, r: Request, mine: string, other: string)
    requires StringIds(env.codec) && ListsById(env, ws, rule) && QueryNamesMine(env, ws, r, mine, other)
    requires r.body.Some? && r.body.value.Text?
    requires env.codec.decode(r.body.value.s) == Some(Object(map["experiment_ids" := TextList([other])]))
    ensures GetsThrough(env, ws, rule, r, other)
  {
    var f, body := IdFieldOf(ExperimentIds), env.codec.decode(r.body.value.s).value;
    OneSpelling(env, r.(body := Some(body)), body.fields, f.name, TextList([other]));
    HiddenIdGetsThrough(env, ws, rule, r, mine, other);
  }

  /** The body, an empty object, names nothing: the handler is left without ids. */
  lemma QueryAloneIsNotRead(env: Env, ws: string, rule: Rule, r: Request, mine: string, other: string)
    requires StringIds(env.codec) && ListsById(env, ws, rule) && QueryNamesMine(env, ws, r, mine, other)
    requires r.body == Some(Object(map[]))
    ensures CheckRule(env, Some(ws), rule, r).Ok? && !Scoped(env, ws, rule.policy, CheckRule(env, Some(ws), rule, r).value)
    ensures HandlerReads(Whole(CheckRule(env, Some(ws), rule, r).value), IdFieldOf(ExperimentIds), env.codec) == Absent
  {
    UnseenGoesOn(env, ws, rule, r, mine, other);
  }

  lemma OneSpelling(env: Env, r: Request, fields: Body, key: string, ids: Value)
    requires r.verb == "POST" && r.body == Some(Object(fields)) && fields == map[key := ids]
    requires key == IdFieldOf(ExperimentIds).name || key == IdFieldOf(ExperimentIds).jsonName
    requires env.codec.convert(IdFieldOf(ExperimentIds), ids) == Some(ids)
    ensures HandlerReads(r, IdFieldOf(ExperimentIds), env.codec) == Is(ids)
    ensures key == IdFieldOf(ExperimentIds).jsonName ==> !BodyHas(r, "experiment_ids")
  {
    assert |IdFieldOf(ExperimentIds).name| == 14 && |IdFieldOf(ExperimentIds).jsonName| == 13;
  }

  /** What the filter does not see goes on as it is. */
  lemma HiddenIdGetsThrough(env: Env, ws: string, rule: Rule, r: Request, mine: string, other: string)
    requires StringIds(env.codec) && ListsById(env, ws, rule) && QueryNamesMine(env, ws, r, mine, other)
    requires !BodyHas(r, "experiment_ids")
    requires HandlerReads(Whole(r), IdFieldOf(ExperimentIds), env.codec) == Is(TextList([other]))
    ensures GetsThrough(env, ws, rule, r, other)
  {
    UnseenGoesOn(env, ws, rule, r, mine, other);
    UnreadableIsUncovered(env, ws, CheckRule(env, Some(ws), rule, r).value, other);
  }

  lemma UnseenGoesOn(env: Env, ws: string, rule: Rule, r: Request, mine: string, other: string)
    requires StringIds(env.codec) && ListsById(env, ws, rule) && QueryNamesMine(env, ws, r, mine, other)
    requires !BodyHas(r, "experiment_ids")
    ensures CheckRule(env, Some(ws), rule, r).Ok?
    ensures HandlerReads(Whole(CheckRule(env, Some(ws), rule, r).value), IdFieldOf(ExperimentIds), env.codec)
         == HandlerReads(Whole(r), IdFieldOf(ExperimentIds), env.codec)
  {
    QueryOfOne(r, mine, IdReader(env, ws));
    QueryPasses(env, ws, r);
    var filtered := Apply(env, ws, ExperimentIds, r).0;
    SameBodySameReading(r, filtered, IdFieldOf(ExperimentIds), env.codec);
    FilteredGoesOn(env, ws, rule, r, filtered);
  }

  lemma QueryPasses(env: Env, ws: string, r: Request)
    requires !BodyHas(r, "experiment_ids") && QueryIds(r, "experiment_ids", IdReader(env, ws)) != []
    ensures var (filtered, applied) := Apply(env, ws, ExperimentIds, r);
            applied && filtered.verb == r.verb && filtered.body == r.body && filtered.loader == r.loader
  {
  }

  lemma UnreadableIsUncovered(env: Env, ws: string, r: Request, other: string)
    requires Clean(other) && !CanReadId(env, ws, other)
    requires HandlerReads(Whole(r), IdFieldOf(ExperimentIds), env.codec) == Is(TextList([other]))
    ensures !Scoped(env, ws, ExperimentIds, r)
  {
    assert Text(other) == TextList([other]).items[0];
    assert !ReadableText(Text(other), IdReader(env, ws));
  }

  /** With no broad permission and no parsers, a request the filter takes at once goes on as filtered. */
  lemma FilteredGoesOn(env: Env, ws: string, rule: Rule, r: Request, filtered: Request)
    requires ListsById(env, ws, rule) && Apply(env, ws, rule.policy, r) == (filtered, true)
    ensures CheckRule(env, Some(ws), rule, r) == Ok(filtered)
  {
    assert CheckBudget(rule, r) == Ok(r);
    assert ByFilter(env, ws, rule, ByName(env, ws, rule, r)) == (filtered, true);
    assert CheckUse(env, ws, rule, filtered) == Ok(filtered);
  }

  lemma QueryOfOne(r: Request, id: string, canRead: string -> bool)
    requires r.query == map["experiment_ids" := Text(id)] && Clean(id) && canRead(id)
    ensures QueryIds(r, "experiment_ids", canRead) == [id]
  {
    ReadableOneMore([], id, canRead);
    assert [] + [id] == [id];
  }

  // ----- What later rules leave of a scope -----

  /** Rules of the later policy leave the scope alone: they rewrite nothing, or filter the ids of another field. */
  predicate Keeps(first: Policy, later: Policy) {
    || later.NoPolicy? || later.BroadOnly? || later.GraphQLFilter? || later.ExperimentId?
    || (IdPolicy(first) && (later.ExperimentIds? || later.RunIds?) && later != first)
  }

  /** Filtering the ids of another field changes nothing about this one. */
  lemma OtherFieldKeepsCovered(r: Request, key: string, other: string -> bool, f: Field, codec: Codec, canRead: string -> bool)
    requires key != f.name && key != f.jsonName && Covered(r, f, codec, canRead)
    ensures Covered(FilterIds(r, key, other).0, f, codec, canRead)
  {
    var r' := FilterIds(r, key, other).0;
    OtherFieldIsKept(r, key, other, f);
    if r.verb == "GET" && r.query != map[] {
      assert f.name in r.query;
    } else {
      OtherFieldKeepsReading(r, r', f, codec);
    }
  }

  /** Nothing but the filtered field has changed, for one that is read from the other fields. */
  ghost predicate KeepsField(r: Request, r': Request, f: Field) {
    && r'.verb == r.verb && r'.loader == r.loader && (r.query == map[] ==> r'.query == map[])
    && (f.name in r.query <==> f.name in r'.query) && (f.name in r.query ==> r'.query[f.name] == r.query[f.name])
    && (|| r'.body == r.body
        || (HasObjectBody(r) && HasObjectBody(r')
            && forall k :: k == f.name || k == f.jsonName ==>
                 (BodyHas(r', k) <==> BodyHas(r, k)) && (BodyHas(r, k) ==> BodyField(r', k) == BodyField(r, k))))
  }

  lemma OtherFieldIsKept(r: Request, key: string, canRead: string -> bool, f: Field)
    requires key != f.name && key != f.jsonName
    ensures KeepsField(r, FilterIds(r, key, canRead).0, f)
  {
  }

  lemma OtherFieldKeepsReading(r: Request, r': Request, f: Field, codec: Codec)
    requires KeepsField(r, r', f) && (r.verb == "GET" ==> r.query == map[])
    ensures HandlerReads(Whole(r'), f, codec) == HandlerReads(Whole(r), f, codec)
  {
    if r'.body != r.body {
      assert BodyHas(r, f.name) <==> BodyHas(r', f.name);
      assert BodyHas(r, f.jsonName) <==> BodyHas(r', f.jsonName);
    }
  }

  /** An attempt at a filter that leaves the scope alone, whether or not it applies. */
  lemma AttemptKeepsScope(env: Env, ws: string, first: Policy, later: Policy, r: Request)
    requires Keeps(first, later) && Scoped(env, ws, first, r)
    ensures Scoped(env, ws, first, Attempt(env, ws, later, r).0)
  {
    ScopeSurvivesLoading(env, ws, first, r);
    if later.ExperimentIds? || later.RunIds? {
      FilterKeepsScope(env, ws, first, later, r);
      FilterKeepsScope(env, ws, first, later, Load(r, false));
    }
  }

  lemma FilterKeepsScope(env: Env, ws: string, first: Policy, later: Policy, r: Request)
    requires IdPolicy(first) && (later.ExperimentIds? || later.RunIds?) && later != first && Scoped(env, ws, first, r)
    ensures Scoped(env, ws, first, Apply(env, ws, later, r).0) && (!Apply(env, ws, later, r).1 ==> Apply(env, ws, later, r).0 == r)
  {
    var f, key := IdFieldOf(first), IdFieldOf(later).name;
    FieldsDiffer(first, later);
    OtherFieldKeepsCovered(r, key, ReaderOf(env, ws, later), f, env.codec, ReaderOf(env, ws, first));
  }

  lemma FieldsDiffer(first: Policy, later: Policy)
    requires IdPolicy(first) && (later.ExperimentIds? || later.RunIds?) && later != first
    ensures IdFieldOf(later).name != IdFieldOf(first).name && IdFieldOf(later).name != IdFieldOf(first).jsonName
  {
    assert |"experiment_ids"| == 14 && |"run_ids"| == 7 && |"experimentIds"| == 13 && |"runIds"| == 6;
    assert |"experiment_id"| == 13 && |"experimentId"| == 12;
  }

  lemma RbacKeepsScope(env: Env, ws: string, first: Policy, rule: Rule, r: Request)
    requires Keeps(first, rule.policy) && Scoped(env, ws, first, r) && rule.verb.Some? && CheckRbac(env, ws, rule, r).Ok?
    ensures Scoped(env, ws, first, CheckRbac(env, ws, rule, r).value)
  {
    var budget := CheckBudget(rule, r).value;
    BudgetIff(rule, r);
    ScopeSurvivesLoading(env, ws, first, r);
    NamesKeepScope(env, ws, first, rule, budget);
    var s := ByName(env, ws, rule, budget);
    if !s.exempt {
      var filtered := ByFilter(env, ws, rule, s).0;
      UseOnlyLoads(env, ws, rule, filtered);
      ScopeSurvivesLoading(env, ws, first, filtered);
    }
  }

  lemma NamesKeepScope(env: Env, ws: string, first: Policy, rule: Rule, r: Request)
    requires Keeps(first, rule.policy) && Scoped(env, ws, first, r) && rule.verb.Some? && rule.resource.Some?
    ensures var s := ByName(env, ws, rule, r); Scoped(env, ws, first, s.request) && Scoped(env, ws, first, ByFilter(env, ws, rule, s).0)
  {
    var s := ByName(env, ws, rule, r);
    ScopeSurvivesLoading(env, ws, first, r);
    AttemptKeepsScope(env, ws, first, rule.policy, s.request);
  }

  lemma RuleKeepsScope(env: Env, ws: Option<string>, first: Policy, rule: Rule, r: Request)
    requires ws.Some? && Keeps(first, rule.policy) && Scoped(env, ws.value, first, r) && CheckRule(env, ws, rule, r).Ok?
    ensures Scoped(env, ws.value, first, CheckRule(env, ws, rule, r).value)
  {
    if rule.verb.Some? {
      RbacKeepsScope(env, ws.value, first, rule, r);
    }
  }

  /** Not so for the other filters: one that moves the body of a GET to its query can lose the ids that were filtered. */
  lemma LaterFilterCanUnscope(env: Env, ws: string, r: Request, mine: string)
    requires StringIds(env.codec) && Clean(mine) && CanReadRun(env, ws, mine)
    requires env.allowed(Review("experiments", "get", ws, None, None)) && env.fields(AuthorizedIds) == [IdFieldOf(ExperimentIds)]
    requires r.verb == "GET" && r.query == map[] && r.loader.None? && r.body == Some(Object(map["run_ids" := TextList([mine])]))
    ensures Scoped(env, ws, RunIds, r) && Attempt(env, ws, AuthorizedIds, r).1
    ensures !Scoped(env, ws, RunIds, Attempt(env, ws, AuthorizedIds, r).0)
  {
    RunsOfBody(env, ws, r, mine);
    BodyIsMoved(env, r);
    assert Attempt(env, ws, AuthorizedIds, r) == (r.(body := None), true);
  }

  lemma RunsOfBody(env: Env, ws: string, r: Request, mine: string)
    requires StringIds(env.codec) && Clean(mine) && CanReadRun(env, ws, mine)
    requires r.verb == "GET" && r.query == map[] && r.body == Some(Object(map["run_ids" := TextList([mine])]))
    ensures Scoped(env, ws, RunIds, r)
  {
    assert |"run_ids"| == 7 && |"runIds"| == 6;
    assert TextList([mine]).items == [Text(mine)];
    assert ReadableText(Text(mine), RunReader(env, ws));
  }

  lemma BodyIsMoved(env: Env, r: Request)
    requires env.fields(AuthorizedIds) == [IdFieldOf(ExperimentIds)]
    requires r.verb == "GET" && r.query == map[] && HasObjectBody(r) && forall k :: k in r.body.value.fields ==> k == "run_ids"
    ensures Normalized(r, env.fields(AuthorizedIds), env.codec) == (r.(body := None), true)
  {
    assert |"run_ids"| == 7 && |"experiment_ids"| == 14 && |"experimentIds"| == 13;
    var f, body := IdFieldOf(ExperimentIds), r.body.value.fields;
    assert !Present(f, body);
    assert [f][..0] == [];
    assert QueryOf([f], body, env.codec) == map[];
  }

  // ----- The whole run -----

  /** A rule passes a request on, and is met. */
  ghost predicate StepMet(env: Env, ws: Option<string>, rule: Rule, r: Request, r': Request) {
    Accepts(env, ws, rule, r, r') && RuleMet(env, ws, rule, r, r')
  }

  /** The requests between the rules of a run. */
  ghost predicate Run(env: Env, ws: Option<string>, rules: seq<Rule>, trace: seq<Request>) {
    Chain(rules, trace, (rule, r, r') => StepMet(env, ws, rule, r, r'))
  }

  /** The rule was met by its filter, which did not leak. */
  ghost predicate MetByTightFilter(env: Env, ws: Option<string>, rule: Rule, r: Request) {
    ws.Some? && MetByFilter(env, ws.value, rule, r) && !Leaks(env, ws.value, rule.policy, FilterSees(rule, r))
  }

  /** The rules after one leave its scope alone. */
  predicate KeptAfter(rules: seq<Rule>, i: nat)
    requires i < |rules|
  {
    forall j :: i < j < |rules| ==> Keeps(rules[i].policy, rules[j].policy)
  }

  lemma StepKeepsScope(env: Env, ws: Option<string>, first: Policy, rule: Rule, r: Request, r': Request)
    requires StepMet(env, ws, rule, r, r') && ws.Some? && Keeps(first, rule.policy) && Scoped(env, ws.value, first, r)
    ensures Scoped(env, ws.value, first, r')
  {
    RuleAcceptsIff(env, ws, rule, r, r');
    RuleKeepsScope(env, ws, first, rule, r);
  }

  /** What every step keeps lasts to the end. */
  lemma {:induction false} StepsKeep(trace: seq<Request>, holds: Request -> bool, from: nat)
    requires from < |trace| && holds(trace[from])
    requires forall j: nat :: from <= j < |trace| - 1 && holds(trace[j]) ==> holds(trace[j + 1])
    ensures holds(trace[|trace| - 1])
    decreases |trace| - from
  {
    if from < |trace| - 1 {
      StepsKeep(trace, holds, from + 1);
    }
  }

  lemma FilterScopesStep(env: Env, ws: Option<string>, rule: Rule, r: Request, r': Request)
    requires StringIds(env.codec) && StepMet(env, ws, rule, r, r') && MetByTightFilter(env, ws, rule, r)
    ensures Scoped(env, ws.value, rule.policy, r')
  {
    RuleAcceptsIff(env, ws, rule, r, r');
    FilteredRuleIsScopedIff(env, ws.value, rule, r);
  }

  lemma ScopeStays(env: Env, ws: Option<string>, first: Policy, rules: seq<Rule>, trace: seq<Request>, from: nat)
    requires Run(env, ws, rules, trace) && ws.Some? && from <= |rules|
    requires Scoped(env, ws.value, first, trace[from]) && forall j :: from <= j < |rules| ==> Keeps(first, rules[j].policy)
    ensures Scoped(env, ws.value, first, trace[|rules|])
  {
    var holds := r => Scoped(env, ws.value, first, r);
    forall j: nat | from <= j < |rules| && holds(trace[j]) ensures holds(trace[j + 1]) {
      StepKeepsScope(env, ws, first, rules[j], trace[j], trace[j + 1]);
    }
    StepsKeep(trace, holds, from);
  }

  /** What a filter was met for, it is still met for in the end. */
  lemma ScopeLasts(env: Env, ws: Option<string>, rules: seq<Rule>, trace: seq<Request>, i: nat)
    requires StringIds(env.codec) && Run(env, ws, rules, trace) && i < |rules|
    requires MetByTightFilter(env, ws, rules[i], trace[i]) && KeptAfter(rules, i)
    ensures Scoped(env, ws.value, rules[i].policy, trace[|rules|])
  {
    FilterScopesStep(env, ws, rules[i], trace[i], trace[i + 1]);
    ScopeStays(env, ws, rules[i].policy, rules, trace, i + 1);
  }

  lemma {:induction false} RulesAreMet(env: Env, ws: Option<string>, rules: seq<Rule>, r: Request) returns (trace: seq<Request>)
    requires StringIds(env.codec) && CheckRules(env, ws, rules, r).Ok?
    ensures Run(env, ws, rules, trace) && trace[0] == r && trace[|rules|] == CheckRules(env, ws, rules, r).value
  {
    if rules == [] {
      trace := [r];
    } else {
      var front, last := rules[..|rules| - 1], rules[|rules| - 1];
      var before := RulesAreMet(env, ws, front, r);
      var r' := CheckRule(env, ws, last, before[|front|]).value;
      RuleIsMet(env, ws, last, before[|front|]);
      RuleAcceptsIff(env, ws, last, before[|front|], r');
      trace := before + [r'];
      assert front + [last] == rules;
      ChainExtends(front, before, (rule, r, r') => StepMet(env, ws, rule, r, r'), last, r');
    }
  }

  /**
   * An accepted request has rules, none denies, and every one was met in turn: the workspace is known wherever
   * needed, and each RBAC rule was granted broadly, by name, by a filter whose result stays within what the
   * caller may read, or by its declared fallback. The request finally accepted is within that, for every rule
   * that was met by a filter that does not leak, where the rules after it leave the scope alone.
   */
  lemma DecisionIsSound(env: Env, cfg: Config, r: Request)
    requires StringIds(env.codec)
    ensures Decided(env, cfg, r).Ok? ==> exists start, trace :: Begins(env, cfg, r, start) && Sound(env, start, Decided(env, cfg, r).value, trace)
  {
    if Decided(env, cfg, r).Ok? {
      var start := Prepare(env, cfg, r).value;
      StartIff(env, cfg, r, start);
      var trace := RulesAreMet(env, start.workspace, start.rules, start.request);
      NoneDenies(env, start.workspace, start.rules, trace);
      forall i | 0 <= i < |start.rules| && MetByTightFilter(env, start.workspace, start.rules[i], trace[i]) && KeptAfter(start.rules, i)
        ensures Scoped(env, start.workspace.value, start.rules[i].policy, Decided(env, cfg, r).value.request)
      {
        ScopeLasts(env, start.workspace, start.rules, trace, i);
        ScopeSurvivesLoading(env, start.workspace.value, start.rules[i].policy, trace[|start.rules|]);
      }
      assert Sound(env, start, Decided(env, cfg, r).value, trace);
    }
  }

  ghost predicate Sound(env: Env, start: Start, accepted: Accepted, trace: seq<Request>) {
    var rules := accepted.rules;
    && rules == start.rules && rules != [] && (forall i :: 0 <= i < |rules| ==> !rules[i].deny)
    && Run(env, start.workspace, rules, trace) && trace[0] == start.request
    && Ends(rules, trace[|rules|], accepted.request)
    && (forall i :: 0 <= i < |rules| && MetByTightFilter(env, start.workspace, rules[i], trace[i]) && KeptAfter(rules, i)
          ==> Scoped(env, start.workspace.value, rules[i].policy, accepted.request))
  }

  lemma NoneDenies(env: Env, ws: Option<string>, rules: seq<Rule>, trace: seq<Request>)
    requires Run(env, ws, rules, trace)
    ensures forall i :: 0 <= i < |rules| ==> !rules[i].deny
  {
    forall i | 0 <= i < |rules| ensures !rules[i].deny {
      assert StepMet(env, ws, rules[i], trace[i], trace[i + 1]);
    }
  }

  // ----- The body is loaded at most once -----

  /** Loads made and still possible. */
  function Potential(r: Request): nat {
    r.loads + if r.loader.Some? then 1 else 0
  }

  /** The searches do not touch the loader. */
  ghost predicate SearchKeepsLoader(env: Env) {
    forall kind, ws, r :: Potential(env.search(kind, ws, r).0) <= Potential(r)
  }

  lemma FiltersKeepLoader(env: Env, ws: string, policy: Policy, r: Request)
    requires SearchKeepsLoader(env)
    ensures Potential(Apply(env, ws, policy, r).0) <= Potential(r)
  {
    if Messaged(policy) {
      NormalizingKeepsLoader(r, env.fields(policy), env.codec);
      FilterKeepsLoader(env, ws, policy, Normalized(r, env.fields(policy), env.codec).0);
    } else {
      FilterKeepsLoader(env, ws, policy, r);
    }
  }

  lemma FilterKeepsLoader(env: Env, ws: string, policy: Policy, r: Request)
    requires SearchKeepsLoader(env)
    ensures Potential(Filtered(env, ws, policy, r).0) <= Potential(r)
  {
    match policy
    case ExperimentIds => FilteringKeepsLoader(r, "experiment_ids", IdReader(env, ws));
    case RunIds => FilteringKeepsLoader(r, "run_ids", RunReader(env, ws));
    case AuthorizedIds => NarrowingKeepsLoader(r, ScopeOf(env, ws), IdsOf(env, ScopeOf(env, ws).names));
    case ListScorers => ScorersKeepLoader(env, ws, r);
    case ExperimentId =>
    case Search(kind, _) => assert Potential(env.search(kind, ws, r).0) <= Potential(r);
    case NoPolicy => case BroadOnly => case GraphQLFilter =>
  }

  lemma ScorersKeepLoader(env: Env, ws: string, r: Request)
    ensures Potential(FilterScorers(env, ws, r).0) == Potential(r)
  {
    NarrowingKeepsLoader(r, ScopeOf(env, ws), IdsOf(env, ScopeOf(env, ws).names));
  }

  lemma NormalizingKeepsLoader(r: Request, fields: seq<Field>, codec: Codec)
    ensures Potential(Normalized(r, fields, codec).0) == Potential(r)
  {
  }

  lemma NarrowingKeepsLoader(r: Request, scope: Scope, allowed: Result<seq<string>, ()>)
    ensures Potential(NarrowToScope(r, scope, allowed).0) == Potential(r)
  {
  }

  lemma FilteringKeepsLoader(r: Request, key: string, canRead: string -> bool)
    ensures Potential(FilterIds(r, key, canRead).0) == Potential(r)
  {
  }

  lemma AttemptKeepsLoader(env: Env, ws: string, policy: Policy, r: Request)
    requires SearchKeepsLoader(env)
    ensures Potential(Attempt(env, ws, policy, r).0) <= Potential(r)
  {
    var from := if Messaged(policy) then Load(r, true) else r;
    var first := Apply(env, ws, policy, from).0;
    FiltersKeepLoader(env, ws, policy, from);
    FiltersKeepLoader(env, ws, policy, Load(first, false));
  }

  lemma RbacKeepsLoader(env: Env, ws: string, rule: Rule, r: Request)
    requires SearchKeepsLoader(env) && rule.verb.Some? && CheckRbac(env, ws, rule, r).Ok?
    ensures Potential(CheckRbac(env, ws, rule, r).value) <= Potential(r)
  {
    var budget := CheckBudget(rule, r);
    BudgetIff(rule, r);
    NormalizingKeepsLoader(Load(budget.value, true), env.fields(rule.policy), env.codec);
    var from := if May(env, ws, rule, None) then KeepScorers(env, rule, budget.value).value else budget.value;
    assert Potential(from) <= Potential(r);
    RestKeepsLoader(env, ws, rule, from);
  }

  lemma RestKeepsLoader(env: Env, ws: string, rule: Rule, from: Request)
    requires SearchKeepsLoader(env) && rule.verb.Some? && rule.resource.Some?
    ensures var s := ByName(env, ws, rule, from);
            && Potential(s.request) <= Potential(from)
            && (CheckUse(env, ws, rule, ByFilter(env, ws, rule, s).0).Ok? ==>
                  Potential(CheckUse(env, ws, rule, ByFilter(env, ws, rule, s).0).value) <= Potential(from))
  {
    var s := ByName(env, ws, rule, from);
    AttemptKeepsLoader(env, ws, rule.policy, s.request);
    var filtered := ByFilter(env, ws, rule, s).0;
    if CheckUse(env, ws, rule, filtered).Ok? {
      UseOnlyLoads(env, ws, rule, filtered);
    }
  }

  lemma {:induction false} RulesKeepLoader(env: Env, ws: Option<string>, rules: seq<Rule>, r: Request)
    requires SearchKeepsLoader(env) && CheckRules(env, ws, rules, r).Ok?
    ensures Potential(CheckRules(env, ws, rules, r).value) <= Potential(r)
  {
    if rules != [] {
      var front, last := rules[..|rules| - 1], rules[|rules| - 1];
      RulesKeepLoader(env, ws, front, r);
      var middle := CheckRules(env, ws, front, r).value;
      if last.verb.Some? {
        RbacKeepsLoader(env, ws.value, last, middle);
      }
    }
  }

  /** Over a whole accepted run the body loader is called at most once. */
  lemma BodyIsLoadedAtMostOnce(env: Env, cfg: Config, r: Request)
    requires SearchKeepsLoader(env)
    ensures Decided(env, cfg, r).Ok? ==> Decided(env, cfg, r).value.request.loads <= r.loads + 1
  {
    if Decided(env, cfg, r).Ok? {
      var start := Prepare(env, cfg, r).value;
      assert Potential(start.request) <= Potential(r);
      RulesKeepLoader(env, start.workspace, start.rules, start.request);
    }
  }
}
