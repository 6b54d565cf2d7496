/**
 * What the compiled tables hold, said of the sources alone: every rule and every registered template goes back
 * to the method of an endpoint, of a view, or to an explicit entry, and these have an order. A literal path has
 * the rules of the last source that offers any for it; templates stand in the order of their sources, and a
 * template is registered once, where its first source stands. From that follows what a lookup finds.
 */
module RouteSources {
  import opened Wrappers
  import opened Templates
  import opened RouteTable

  /** The `j`th method of an endpoint or a view, or an explicit entry; all endpoints come before all views, and views before entries. */
  datatype Source = OfEndpoint(i: nat, j: nat) | OfView(i: nat, j: nat) | OfEntry(i: nat)

  function Rank(s: Source): (r: nat)
    ensures r <= 2
  {
    match s case OfEndpoint(_, _) => 0 case OfView(_, _) => 1 case OfEntry(_) => 2
  }

  function Minor(s: Source): nat {
    if s.OfEntry? then 0 else s.j
  }

  predicate Before(a: Source, b: Source) {
    Rank(a) < Rank(b) || (Rank(a) == Rank(b) && (a.i < b.i || (a.i == b.i && Minor(a) < Minor(b))))
  }

  /** The source takes part: a protected endpoint with a handler rule, a protected custom view aside HEAD and OPTIONS, any entry. */
  predicate Counts<R>(site: Site<R>, s: Source) {
    match s
    case OfEndpoint(i, j) =>
      && i < |site.endpoints| && j < |site.endpoints[i].verbs|
      && site.endpoints[i].path != "" && !site.unprotected(site.endpoints[i].path) && site.endpoints[i].handler in site.handlerRules
    case OfView(i, j) =>
      && i < |site.views| && j < |site.views[i].verbs| && site.views[i].verbs[j] != "HEAD" && site.views[i].verbs[j] != "OPTIONS"
      && site.views[i].handler.Some? && !site.unprotected(site.views[i].path) && site.views[i].handler.value !in site.handlerRules
    case OfEntry(i) => i < |site.entries|
  }

  function KeyAt<R>(site: Site<R>, s: Source): Key
    requires Counts(site, s)
  {
    match s
    case OfEndpoint(i, j) => Key(site.endpoints[i].path, site.endpoints[i].verbs[j])
    case OfView(i, j) => Key(site.views[i].path, site.views[i].verbs[j])
    case OfEntry(i) => site.entries[i].key
  }

  /** The rules it offers: of the endpoint's own handler, or the entry's. */
  function RulesAt<R>(site: Site<R>, s: Source): R
    requires Counts(site, s) && !s.OfView?
  {
    if s.OfEndpoint? then site.handlerRules[site.endpoints[s.i].handler] else site.entries[s.i].rules
  }

  /** A source that offers rules for a key. */
  predicate Offers<R>(site: Site<R>, s: Source, key: Key) {
    Counts(site, s) && !s.OfView? && KeyAt(site, s) == key
  }

  ghost predicate InOrder(sources: seq<Source>) {
    forall i, j :: 0 <= i < j < |sources| ==> Before(sources[i], sources[j])
  }

  // ----- The tables of the sources before a bound -----

  /** The route list: the templated sources of rules, in order. */
  ghost predicate RoutesFollow<R>(site: Site<R>, routes: seq<Route<R>>, bound: Source, from: seq<Source>) {
    && |from| == |routes| && InOrder(from)
    && (forall k :: 0 <= k < |from| ==>
          Before(from[k], bound) && Counts(site, from[k]) && !from[k].OfView? && '<' in KeyAt(site, from[k]).path
          && routes[k] == Route(KeyAt(site, from[k]), RulesAt(site, from[k])))
    && (forall s :: Counts(site, s) && !s.OfView? && Before(s, bound) && '<' in KeyAt(site, s).path ==> s in from)
  }

  /** The exact rules: of each literal key, those of its last source. */
  ghost predicate ExactFollows<R>(site: Site<R>, exact: map<Key, R>, bound: Source, last: map<Key, Source>) {
    && exact.Keys == last.Keys
    && (forall k :: k in last ==>
          '<' !in k.path && Before(last[k], bound) && Offers(site, last[k], k) && exact[k] == RulesAt(site, last[k]))
    && (forall s :: Counts(site, s) && !s.OfView? && Before(s, bound) && '<' !in KeyAt(site, s).path ==>
          var k := KeyAt(site, s); k in last && (s == last[k] || Before(s, last[k])))
  }

  /** The registered templates: each once, where its first source stands. */
  ghost predicate ParamsFollow<R>(site: Site<R>, params: seq<Key>, bound: Source, from: seq<Source>) {
    && |from| == |params| && InOrder(from) && (forall i, j :: 0 <= i < j < |params| ==> params[i] != params[j])
    && (forall k :: 0 <= k < |from| ==>
          Before(from[k], bound) && Counts(site, from[k]) && '<' in params[k].path && KeyAt(site, from[k]) == params[k])
    && (forall s :: Counts(site, s) && Before(s, bound) && '<' in KeyAt(site, s).path ==> ListedBy(params, from, KeyAt(site, s), s))
  }

  /** The key is listed, from this source or an earlier one. */
  ghost predicate ListedBy(params: seq<Key>, from: seq<Source>, key: Key, s: Source)
    requires |from| == |params|
  {
    exists k :: 0 <= k < |params| && params[k] == key && (from[k] == s || Before(from[k], s))
  }

  ghost predicate HasRoutes<R>(site: Site<R>, routes: seq<Route<R>>, bound: Source) {
    exists from :: RoutesFollow(site, routes, bound, from)
  }

  ghost predicate HasExact<R>(site: Site<R>, exact: map<Key, R>, bound: Source) {
    exists last :: ExactFollows(site, exact, bound, last)
  }

  ghost predicate HasParams<R>(site: Site<R>, params: seq<Key>, bound: Source) {
    exists from :: ParamsFollow(site, params, bound, from)
  }

  ghost predicate Follows<R>(site: Site<R>, d: Draft<R>, bound: Source) {
    HasRoutes(site, d.routes, bound) && HasExact(site, d.exact, bound) && HasParams(site, d.params, bound)
  }

  /** The bounds have the same sources before them. */
  ghost predicate SameBefore<R>(site: Site<R>, a: Source, b: Source) {
    forall s :: Counts(site, s) ==> (Before(s, a) <==> Before(s, b))
  }

  lemma BoundMoves<R>(site: Site<R>, d: Draft<R>, a: Source, b: Source)
    requires Follows(site, d, a) && SameBefore(site, a, b)
    ensures Follows(site, d, b)
  {
    var routes :| RoutesFollow(site, d.routes, a, routes);
    assert RoutesFollow(site, d.routes, b, routes);
    var last :| ExactFollows(site, d.exact, a, last);
    assert ExactFollows(site, d.exact, b, last);
    var params :| ParamsFollow(site, d.params, a, params);
    assert ParamsFollow(site, d.params, b, params);
  }

  /** The next bound has one source more before it. */
  ghost predicate NextBound<R>(site: Site<R>, s: Source, next: Source) {
    Before(s, next) && forall o :: Counts(site, o) ==> (Before(o, next) <==> Before(o, s) || o == s)
  }

  lemma RouteStep<R>(site: Site<R>, routes: seq<Route<R>>, s: Source, next: Source)
    requires Counts(site, s) && !s.OfView? && NextBound(site, s, next) && HasRoutes(site, routes, s)
    ensures '<' in KeyAt(site, s).path ==> HasRoutes(site, routes + [Route(KeyAt(site, s), RulesAt(site, s))], next)
    ensures '<' !in KeyAt(site, s).path ==> HasRoutes(site, routes, next)
  {
    var from :| RoutesFollow(site, routes, s, from);
    if '<' in KeyAt(site, s).path {
      RouteMore(site, routes, s, next, from, Route(KeyAt(site, s), RulesAt(site, s)));
    } else {
      assert RoutesFollow(site, routes, next, from);
    }
  }

  lemma RouteMore<R>(site: Site<R>, routes: seq<Route<R>>, s: Source, next: Source, from: seq<Source>, route: Route<R>)
    requires Counts(site, s) && !s.OfView? && NextBound(site, s, next) && RoutesFollow(site, routes, s, from)
    requires '<' in KeyAt(site, s).path && route == Route(KeyAt(site, s), RulesAt(site, s))
    ensures RoutesFollow(site, routes + [route], next, from + [s])
  {
    var longer := from + [s];
    forall o | Counts(site, o) && !o.OfView? && Before(o, next) && '<' in KeyAt(site, o).path ensures o in longer {
      if o == s {
        assert longer[|from|] == o;
      } else {
        var k :| 0 <= k < |from| && from[k] == o;
        assert longer[k] == o;
      }
    }
    OrderGrows(from, s);
  }

  lemma OrderGrows(from: seq<Source>, s: Source)
    requires InOrder(from) && forall k :: 0 <= k < |from| ==> Before(from[k], s)
    ensures InOrder(from + [s])
  {
  }

  lemma ViewKeepsRules<R>(site: Site<R>, d: Draft<R>, s: Source, next: Source)
    requires s.OfView? && Counts(site, s) && NextBound(site, s, next) && HasRoutes(site, d.routes, s) && HasExact(site, d.exact, s)
    ensures HasRoutes(site, d.routes, next) && HasExact(site, d.exact, next)
  {
    var from :| RoutesFollow(site, d.routes, s, from);
    assert RoutesFollow(site, d.routes, next, from);
    var last :| ExactFollows(site, d.exact, s, last);
    assert ExactFollows(site, d.exact, next, last);
  }

  lemma ExactStep<R>(site: Site<R>, exact: map<Key, R>, s: Source, next: Source, key: Key, rules: R)
    requires Counts(site, s) && !s.OfView? && NextBound(site, s, next) && HasExact(site, exact, s)
    requires key == KeyAt(site, s) && rules == RulesAt(site, s)
    ensures HasExact(site, if '<' in key.path then exact else exact[key := rules], next)
  {
    var last :| ExactFollows(site, exact, s, last);
    if '<' in key.path {
      assert ExactFollows(site, exact, next, last);
    } else {
      LastIsNow(site, exact, s, next, last);
    }
  }

  lemma LastIsNow<R>(site: Site<R>, exact: map<Key, R>, s: Source, next: Source, last: map<Key, Source>)
    requires Counts(site, s) && !s.OfView? && NextBound(site, s, next) && ExactFollows(site, exact, s, last) && '<' !in KeyAt(site, s).path
    ensures ExactFollows(site, exact[KeyAt(site, s) := RulesAt(site, s)], next, last[KeyAt(site, s) := s])
  {
    var key := KeyAt(site, s);
    var last' := last[key := s];
    forall o | Counts(site, o) && !o.OfView? && Before(o, next) && '<' !in KeyAt(site, o).path
      ensures KeyAt(site, o) in last' && (o == last'[KeyAt(site, o)] || Before(o, last'[KeyAt(site, o)]))
    {
      assert o == s || Before(o, s);
    }
    forall k | k in last' ensures Before(last'[k], next) && Offers(site, last'[k], k) {
      if k != key {
        assert Offers(site, last[k], k);
      }
    }
  }

  lemma ParamStep<R>(site: Site<R>, params: seq<Key>, s: Source, next: Source, key: Key)
    requires Counts(site, s) && NextBound(site, s, next) && HasParams(site, params, s) && key == KeyAt(site, s)
    ensures HasParams(site, if '<' in key.path && key !in params then params + [key] else params, next)
  {
    var from :| ParamsFollow(site, params, s, from);
    if '<' in key.path && key !in params {
      NewParam(site, params, s, next, from);
    } else {
      OldParam(site, params, s, next, from);
    }
  }

  lemma NewParam<R>(site: Site<R>, params: seq<Key>, s: Source, next: Source, from: seq<Source>)
    requires Counts(site, s) && NextBound(site, s, next) && ParamsFollow(site, params, s, from)
    requires '<' in KeyAt(site, s).path && KeyAt(site, s) !in params
    ensures ParamsFollow(site, params + [KeyAt(site, s)], next, from + [s])
  {
    var key := KeyAt(site, s);
    var params', from' := params + [key], from + [s];
    forall o | Counts(site, o) && Before(o, next) && '<' in KeyAt(site, o).path ensures ListedBy(params', from', KeyAt(site, o), o) {
      if o == s {
        assert params'[|params|] == KeyAt(site, o) && from'[|params|] == o;
      } else {
        ListedStays(params, from, key, s, KeyAt(site, o), o);
      }
    }
    ParamsDistinct(params, key);
    OrderGrows(from, s);
  }

  lemma ListedStays(params: seq<Key>, from: seq<Source>, newKey: Key, newSource: Source, key: Key, s: Source)
    requires |from| == |params| && ListedBy(params, from, key, s)
    ensures ListedBy(params + [newKey], from + [newSource], key, s)
  {
    var k :| 0 <= k < |params| && params[k] == key && (from[k] == s || Before(from[k], s));
    assert (params + [newKey])[k] == key && (from + [newSource])[k] == from[k];
  }

  lemma ParamsDistinct(params: seq<Key>, key: Key)
    requires (forall i, j :: 0 <= i < j < |params| ==> params[i] != params[j]) && key !in params
    ensures forall i, j :: 0 <= i < j < |params| + 1 ==> (params + [key])[i] != (params + [key])[j]
  {
  }

  lemma OldParam<R>(site: Site<R>, params: seq<Key>, s: Source, next: Source, from: seq<Source>)
    requires Counts(site, s) && NextBound(site, s, next) && ParamsFollow(site, params, s, from)
    requires '<' !in KeyAt(site, s).path || KeyAt(site, s) in params
    ensures ParamsFollow(site, params, next, from)
  {
    forall o | Counts(site, o) && Before(o, next) && '<' in KeyAt(site, o).path ensures ListedBy(params, from, KeyAt(site, o), o) {
      if o == s {
        var k :| 0 <= k < |params| && params[k] == KeyAt(site, s);
        assert Before(from[k], s);
      }
    }
  }

  /** Adding the rules of a source. */
  lemma RuleStep<R>(site: Site<R>, d: Draft<R>, s: Source, next: Source)
    requires Counts(site, s) && !s.OfView? && NextBound(site, s, next) && Follows(site, d, s)
    ensures Follows(site, WithRule(d, KeyAt(site, s), RulesAt(site, s)), next)
  {
    RouteStep(site, d.routes, s, next);
    ExactStep(site, d.exact, s, next, KeyAt(site, s), RulesAt(site, s));
    ParamStep(site, d.params, s, next, KeyAt(site, s));
  }

  /** Registering the template of a view. */
  lemma ViewStep<R>(site: Site<R>, d: Draft<R>, s: Source, next: Source)
    requires s.OfView? && Counts(site, s) && NextBound(site, s, next) && Follows(site, d, s)
    ensures Follows(site, Registered(d, KeyAt(site, s)), next)
  {
    ViewKeepsRules(site, d, s, next);
    ParamStep(site, d.params, s, next, KeyAt(site, s));
  }

  // ----- The three passes -----

  lemma {:induction false} EndpointVerbs<R>(site: Site<R>, d: Draft<R>, i: nat, n: nat)
    requires i < |site.endpoints| && HandlerRuled(site, site.endpoints[i]) && n <= |site.endpoints[i].verbs|
    requires Follows(site, d, OfEndpoint(i, 0))
    ensures var e := site.endpoints[i];
            Follows(site, WithRules(d, e.path, e.verbs[..n], site.handlerRules[e.handler]), OfEndpoint(i, n))
  {
    if n > 0 {
      var e := site.endpoints[i];
      EndpointVerbs(site, d, i, n - 1);
      assert e.verbs[..n][..n - 1] == e.verbs[..n - 1];
      RuleStep(site, WithRules(d, e.path, e.verbs[..n - 1], site.handlerRules[e.handler]), OfEndpoint(i, n - 1), OfEndpoint(i, n));
    }
  }

  lemma EndpointFollows<R>(site: Site<R>, d: Draft<R>, i: nat)
    requires i < |site.endpoints| && Follows(site, d, OfEndpoint(i, 0))
    ensures Follows(site, AfterEndpoint(site, d, site.endpoints[i]), OfEndpoint(i + 1, 0))
  {
    var e := site.endpoints[i];
    if HandlerRuled(site, e) {
      EndpointVerbs(site, d, i, |e.verbs|);
      assert e.verbs[..|e.verbs|] == e.verbs;
      BoundMoves(site, AfterEndpoint(site, d, e), OfEndpoint(i, |e.verbs|), OfEndpoint(i + 1, 0));
    } else {
      BoundMoves(site, AfterEndpoint(site, d, e), OfEndpoint(i, 0), OfEndpoint(i + 1, 0));
    }
  }

  lemma {:induction false} EndpointsFollow<R>(site: Site<R>, n: nat)
    requires n <= |site.endpoints|
    ensures Follows(site, AfterEndpoints(site, site.endpoints[..n]), OfEndpoint(n, 0))
  {
    if n == 0 {
      var none: seq<Source> := [];
      var nothing: map<Key, Source> := map[];
      assert RoutesFollow(site, [], OfEndpoint(0, 0), none);
      assert ExactFollows(site, map[], OfEndpoint(0, 0), nothing);
      assert ParamsFollow(site, [], OfEndpoint(0, 0), none);
    } else {
      EndpointsFollow(site, n - 1);
      assert site.endpoints[..n][..n - 1] == site.endpoints[..n - 1];
      EndpointFollows(site, AfterEndpoints(site, site.endpoints[..n - 1]), n - 1);
    }
  }

  lemma {:induction false} ViewVerbs<R>(site: Site<R>, d: Draft<R>, i: nat, n: nat)
    requires i < |site.views| && Custom(site, site.views[i]) && n <= |site.views[i].verbs|
    requires Follows(site, d, OfView(i, 0))
    ensures Follows(site, AllRegistered(d, site.views[i].path, Answered(site.views[i].verbs[..n])), OfView(i, n))
  {
    if n > 0 {
      var v := site.views[i];
      var before := AllRegistered(d, v.path, Answered(v.verbs[..n - 1]));
      ViewVerbs(site, d, i, n - 1);
      AnsweredOneMore(d, v.path, v.verbs, n);
      if v.verbs[n - 1] == "HEAD" || v.verbs[n - 1] == "OPTIONS" {
        BoundMoves(site, before, OfView(i, n - 1), OfView(i, n));
      } else {
        ViewStep(site, before, OfView(i, n - 1), OfView(i, n));
      }
    }
  }

  lemma AnsweredOneMore<R>(d: Draft<R>, path: string, verbs: seq<string>, n: nat)
    requires 0 < n <= |verbs|
    ensures AllRegistered(d, path, Answered(verbs[..n])) ==
      if verbs[n - 1] == "HEAD" || verbs[n - 1] == "OPTIONS" then AllRegistered(d, path, Answered(verbs[..n - 1]))
      else Registered(AllRegistered(d, path, Answered(verbs[..n - 1])), Key(path, verbs[n - 1]))
  {
    assert verbs[..n][..n - 1] == verbs[..n - 1];
    var front := Answered(verbs[..n - 1]);
    assert (front + [verbs[n - 1]])[..|front|] == front;
  }

  lemma ViewFollows<R>(site: Site<R>, d: Draft<R>, i: nat)
    requires i < |site.views| && Follows(site, d, OfView(i, 0))
    ensures Follows(site, AfterView(site, d, site.views[i]), OfView(i + 1, 0))
  {
    var v := site.views[i];
    if Custom(site, v) {
      var verbs := Answered(v.verbs);
      ViewVerbs(site, d.(uncovered := d.uncovered + Missing(site.entries, v.path, verbs)), i, |v.verbs|);
      assert v.verbs[..|v.verbs|] == v.verbs;
      BoundMoves(site, AfterView(site, d, v), OfView(i, |v.verbs|), OfView(i + 1, 0));
    } else {
      BoundMoves(site, d, OfView(i, 0), OfView(i + 1, 0));
    }
  }

  lemma {:induction false} ViewsFollow<R>(site: Site<R>, first: Draft<R>, n: nat)
    requires n <= |site.views| && Follows(site, first, OfView(0, 0))
    ensures Follows(site, AfterViews(site, first, site.views[..n]), OfView(n, 0))
  {
    if n > 0 {
      ViewsFollow(site, first, n - 1);
      assert site.views[..n][..n - 1] == site.views[..n - 1];
      ViewFollows(site, AfterViews(site, first, site.views[..n - 1]), n - 1);
    }
  }

  lemma {:induction false} EntriesFollow<R>(site: Site<R>, d: Draft<R>, n: nat)
    requires n <= |site.entries| && Follows(site, d, OfEntry(0))
    ensures Follows(site, AfterEntries(d, site.entries[..n]), OfEntry(n))
  {
    if n > 0 {
      EntriesFollow(site, d, n - 1);
      assert site.entries[..n][..n - 1] == site.entries[..n - 1];
      RuleStep(site, AfterEntries(d, site.entries[..n - 1]), OfEntry(n - 1), OfEntry(n));
    }
  }

  /** The finished tables go by all sources. */
  lemma TablesFollowSources<R>(site: Site<R>)
    ensures Follows(site, Final(site), OfEntry(|site.entries|))
    ensures forall s :: Counts(site, s) ==> Before(s, OfEntry(|site.entries|))
  {
    EndpointsFollow(site, |site.endpoints|);
    assert site.endpoints[..|site.endpoints|] == site.endpoints;
    BoundMoves(site, FirstPass(site), OfEndpoint(|site.endpoints|, 0), OfView(0, 0));
    ViewsFollow(site, FirstPass(site), |site.views|);
    assert site.views[..|site.views|] == site.views;
    BoundMoves(site, SecondPass(site), OfView(|site.views|, 0), OfEntry(0));
    EntriesFollow(site, SecondPass(site), |site.entries|);
    assert site.entries[..|site.entries|] == site.entries;
  }

  // ----- What a lookup finds -----

  /** Of the sources that offer rules for a key, the last. */
  ghost predicate Latest<R>(site: Site<R>, s: Source, key: Key) {
    Offers(site, s, key) && forall o :: Offers(site, o, key) ==> o == s || Before(o, s)
  }

  /** A templated source of rules whose template takes the path. */
  predicate Takes<R>(site: Site<R>, s: Source, path: string, verb: string) {
    && Counts(site, s) && !s.OfView? && '<' in KeyAt(site, s).path && KeyAt(site, s).verb == verb
    && Accepts(RulePattern(KeyAt(site, s).path), path)
  }

  /** Of these, the first. */
  ghost predicate Earliest<R>(site: Site<R>, s: Source, path: string, verb: string) {
    Takes(site, s, path, verb) && forall o :: Takes(site, o, path, verb) ==> o == s || Before(s, o)
  }

  /**
   * What a request is given: the rules of the last source that offers any for its very path, or for GraphQL
   * those its document derives; otherwise those of the first template that takes the path; otherwise nothing.
   */
  ghost predicate Given<R>(site: Site<R>, path: string, verb: string, graphql: Option<R>, found: Option<R>) {
    if '<' !in path && exists s :: Offers(site, s, Key(path, verb)) then
      exists s :: Latest(site, s, Key(path, verb)) && found == if exists front :: path == front + "/graphql" then graphql else Some(RulesAt(site, s))
    else if exists s :: Takes(site, s, path, verb) then exists s :: Earliest(site, s, path, verb) && found == Some(RulesAt(site, s))
    else found == None
  }

  lemma GraphQLPaths(path: string)
    ensures IsGraphQL(path) <==> exists front :: path == front + "/graphql"
  {
    assert |"/graphql"| == 8;
    if IsGraphQL(path) {
      assert path == path[..|path| - 8] + "/graphql";
    }
  }

  lemma ExactByLatest<R>(site: Site<R>, key: Key, d: Draft<R>)
    requires d == Final(site)
    ensures key in d.exact <==> '<' !in key.path && exists s :: Offers(site, s, key)
    ensures key in d.exact ==> exists s :: Latest(site, s, key) && d.exact[key] == RulesAt(site, s)
  {
    TablesFollowSources(site);
    var last :| ExactFollows(site, d.exact, OfEntry(|site.entries|), last);
    if key in d.exact {
      assert Offers(site, last[key], key);
      assert Latest(site, last[key], key);
    }
  }

  lemma RoutesByEarliest<R>(site: Site<R>, path: string, verb: string, d: Draft<R>)
    requires d == Final(site)
    ensures var k := FirstMatch(d.routes, path, verb);
            && (k < |d.routes| <==> exists s :: Takes(site, s, path, verb))
            && (k < |d.routes| ==> exists s :: Earliest(site, s, path, verb) && d.routes[k].rules == RulesAt(site, s))
  {
    TablesFollowSources(site);
    var from :| RoutesFollow(site, d.routes, OfEntry(|site.entries|), from);
    var k := FirstMatch(d.routes, path, verb);
    forall s | Takes(site, s, path, verb) ensures k < |d.routes| && (s == from[k] || Before(from[k], s)) {
      TakerComesLater(site, path, verb, d.routes, OfEntry(|site.entries|), from, k, s);
    }
    if k < |d.routes| {
      MatchTakes(site, path, verb, d.routes, OfEntry(|site.entries|), from, k);
      assert Earliest(site, from[k], path, verb);
    }
  }

  lemma TakerComesLater<R>(site: Site<R>, path: string, verb: string, routes: seq<Route<R>>, bound: Source, from: seq<Source>, k: nat, s: Source)
    requires RoutesFollow(site, routes, bound, from) && Takes(site, s, path, verb) && Before(s, bound)
    requires k <= |routes| && forall i :: 0 <= i < k ==> !Matches(routes[i], path, verb)
    ensures k < |routes| && (s == from[k] || Before(from[k], s))
  {
    var i :| 0 <= i < |from| && from[i] == s;
    assert routes[i] == Route(KeyAt(site, s), RulesAt(site, s));
    assert Matches(routes[i], path, verb);
  }

  lemma MatchTakes<R>(site: Site<R>, path: string, verb: string, routes: seq<Route<R>>, bound: Source, from: seq<Source>, k: nat)
    requires RoutesFollow(site, routes, bound, from) && k < |routes| && Matches(routes[k], path, verb)
    ensures Takes(site, from[k], path, verb) && routes[k].rules == RulesAt(site, from[k])
  {
  }

  /** Lookup on the compiled tables gives what the sources say. */
  lemma LookupGoesBySources<R>(site: Site<R>, path: string, verb: string, graphql: Option<R>)
    requires Compiled(site).Ok?
    ensures Given(site, path, verb, graphql, Lookup(Compiled(site).value, path, verb, graphql))
  {
    GraphQLPaths(path);
    ExactByLatest(site, Key(path, verb), Final(site));
    RoutesByEarliest(site, path, verb, Final(site));
  }

  /**
   * A handler-ruled endpoint has the rules of its own handler: a literal path if no later source offers rules
   * for it, and any path of its template if none is offered for that very path and no earlier template takes it.
   */
  lemma EndpointHasItsHandlersRules<R>(site: Site<R>, i: nat, j: nat, path: string, graphql: Option<R>)
    requires Compiled(site).Ok? && PlainSite(site) && Counts(site, OfEndpoint(i, j)) && Instance(site.endpoints[i].path, path)
    requires !exists front :: path == front + "/graphql"
    requires var s, verb := OfEndpoint(i, j), site.endpoints[i].verbs[j];
             if '<' !in site.endpoints[i].path then forall o :: Offers(site, o, Key(path, verb)) ==> o == s || Before(o, s)
             else (forall o :: !Offers(site, o, Key(path, verb))) && forall o :: Takes(site, o, path, verb) ==> o == s || Before(s, o)
    ensures Lookup(Compiled(site).value, path, site.endpoints[i].verbs[j], graphql) == Some(site.handlerRules[site.endpoints[i].handler])
  {
    var s, verb := OfEndpoint(i, j), site.endpoints[i].verbs[j];
    LookupGoesBySources(site, path, verb, graphql);
    var found := Lookup(Compiled(site).value, path, verb, graphql);
    if '<' !in site.endpoints[i].path {
      InstanceOfLiteral(site.endpoints[i].path, path);
      LatestIsGiven(site, path, verb, graphql, found, s);
    } else {
      InstanceIsAccepted(site.endpoints[i].path, path);
      EarliestIsGiven(site, path, verb, graphql, found, s);
    }
  }

  lemma LatestIsGiven<R>(site: Site<R>, path: string, verb: string, graphql: Option<R>, found: Option<R>, s: Source)
    requires Given(site, path, verb, graphql, found) && Latest(site, s, Key(path, verb)) && '<' !in path
    requires !exists front :: path == front + "/graphql"
    ensures found == Some(RulesAt(site, s))
  {
    var o :| Latest(site, o, Key(path, verb)) && found == Some(RulesAt(site, o));
    SameUnlessBefore(o, s);
  }

  lemma EarliestIsGiven<R>(site: Site<R>, path: string, verb: string, graphql: Option<R>, found: Option<R>, s: Source)
    requires Given(site, path, verb, graphql, found) && Earliest(site, s, path, verb) && forall o :: !Offers(site, o, Key(path, verb))
    ensures found == Some(RulesAt(site, s))
  {
    var o :| Earliest(site, o, path, verb) && found == Some(RulesAt(site, o));
    SameUnlessBefore(o, s);
  }

  lemma SameUnlessBefore(a: Source, b: Source)
    ensures !(Before(a, b) && Before(b, a))
  {
  }

  // ----- What path parameters are extracted -----

  /** A source whose template reads the path. */
  predicate Reads<R>(site: Site<R>, s: Source, path: string, verb: string) {
    Counts(site, s) && '<' in KeyAt(site, s).path && KeyAt(site, s).verb == verb && Accepts(NamedPattern(KeyAt(site, s).path), path)
  }

  ghost predicate FirstReader<R>(site: Site<R>, s: Source, path: string, verb: string) {
    Reads(site, s, path, verb) && forall o :: Reads(site, o, path, verb) ==> o == s || Before(s, o)
  }

  /** Of the listed keys with a property, the first comes from the first source of a key with it. */
  lemma FirstListed<R>(site: Site<R>, params: seq<Key>, bound: Source, from: seq<Source>, holds: Key -> bool, k: nat, s: Source)
    requires ParamsFollow(site, params, bound, from) && Counts(site, s) && Before(s, bound) && '<' in KeyAt(site, s).path && holds(KeyAt(site, s))
    requires k <= |params| && forall i :: 0 <= i < k ==> !holds(params[i])
    ensures k < |params| && (s == from[k] || Before(from[k], s))
  {
    var i := WhereListed(params, from, KeyAt(site, s), s);
    assert holds(params[i]);
    EarlierOnes(from, k, i, s);
  }

  lemma WhereListed(params: seq<Key>, from: seq<Source>, key: Key, s: Source) returns (i: nat)
    requires |from| == |params| && ListedBy(params, from, key, s)
    ensures i < |params| && params[i] == key && (from[i] == s || Before(from[i], s))
  {
    i :| 0 <= i < |params| && params[i] == key && (from[i] == s || Before(from[i], s));
  }

  lemma EarlierOnes(from: seq<Source>, k: nat, i: nat, s: Source)
    requires InOrder(from) && k <= i < |from| && (from[i] == s || Before(from[i], s))
    ensures from[k] == s || Before(from[k], s)
  {
  }

  /** The values a template reads from a path. */
  function ValuesBy(template: string, path: string): map<string, string>
    requires Accepts(NamedPattern(template), path)
  {
    RouteTable.Named(Tokens(template), FullMatch(NamedPattern(template), path).value)
  }

  /** The parameters are those of the first template that reads the path at all; none without one. */
  ghost predicate ReadFirst<R>(site: Site<R>, path: string, verb: string, values: map<string, string>) {
    if exists s :: Reads(site, s, path, verb) then exists s :: FirstReader(site, s, path, verb) && values == ValuesBy(KeyAt(site, s).path, path)
    else values == map[]
  }

  lemma ReadByListed<R>(site: Site<R>, path: string, verb: string, params: seq<Key>, bound: Source, from: seq<Source>, k: nat)
    requires ParamsFollow(site, params, bound, from) && forall s :: Counts(site, s) ==> Before(s, bound)
    requires k <= |params| && forall i :: 0 <= i < k ==> !(params[i].verb == verb && Accepts(NamedPattern(params[i].path), path))
    requires k < |params| ==> params[k].verb == verb && Accepts(NamedPattern(params[k].path), path)
    ensures ReadFirst(site, path, verb, if k == |params| then map[] else ValuesBy(params[k].path, path))
  {
    var holds := (key: Key) => key.verb == verb && Accepts(NamedPattern(key.path), path);
    forall s | Reads(site, s, path, verb) ensures k < |params| && (s == from[k] || Before(from[k], s)) {
      FirstListed(site, params, bound, from, holds, k, s);
    }
    if k < |params| {
      assert Reads(site, from[k], path, verb);
      assert FirstReader(site, from[k], path, verb);
    }
  }

  /** Path parameters are read by the first template that reads the path, of endpoints, views and entries in turn. */
  lemma ParamsGoBySources<R>(site: Site<R>, path: string, verb: string)
    requires Compiled(site).Ok?
    ensures ReadFirst(site, path, verb, PathParams(Compiled(site).value, path, verb))
  {
    TablesFollowSources(site);
    var params := Final(site).params;
    var from :| ParamsFollow(site, params, OfEntry(|site.entries|), from);
    ReadByListed(site, path, verb, params, OfEntry(|site.entries|), from, FirstParams(params, path, verb));
  }

  // ----- What is reported as uncovered -----

  /** A method of a protected endpoint without a handler rule, some of whose methods lack an explicit entry. */
  ghost predicate EndpointGap<R>(site: Site<R>, e: Endpoint, key: Key) {
    && e.path != "" && !site.unprotected(e.path) && e.handler !in site.handlerRules
    && key.path == e.path && key.verb in e.verbs && exists v :: v in e.verbs && !HasEntry(site.entries, Key(e.path, v))
  }

  /** A method of a protected custom view, aside HEAD and OPTIONS, without an explicit entry. */
  ghost predicate ViewGap<R>(site: Site<R>, v: View, key: Key) {
    && v.handler.Some? && !site.unprotected(v.path) && v.handler.value !in site.handlerRules
    && key.path == v.path && key.verb in v.verbs && key.verb != "HEAD" && key.verb != "OPTIONS" && !HasEntry(site.entries, key)
  }

  lemma KeysAreOf(path: string, verbs: seq<string>, key: Key)
    ensures key in Keys(path, verbs) <==> key.path == path && key.verb in verbs
  {
    if key.path == path && key.verb in verbs {
      var i :| 0 <= i < |verbs| && verbs[i] == key.verb;
      assert Keys(path, verbs)[i] == key;
    }
  }

  lemma {:induction false} EndpointGaps<R>(site: Site<R>, es: seq<Endpoint>, key: Key)
    ensures key in AfterEndpoints(site, es).uncovered <==> exists i :: 0 <= i < |es| && EndpointGap(site, es[i], key)
  {
    if es != [] {
      var front, e := es[..|es| - 1], es[|es| - 1];
      EndpointGaps(site, front, key);
      KeysAreOf(e.path, e.verbs, key);
      if HandlerRuled(site, e) {
        RulesAreAdded(AfterEndpoints(site, front), e.path, e.verbs, site.handlerRules[e.handler]);
      }
      assert key in AfterEndpoints(site, es).uncovered <==> key in AfterEndpoints(site, front).uncovered || EndpointGap(site, e, key);
    }
  }

  lemma {:induction false} ViewGaps<R>(site: Site<R>, first: Draft<R>, vs: seq<View>, key: Key)
    ensures key in AfterViews(site, first, vs).uncovered <==> key in first.uncovered || exists i :: 0 <= i < |vs| && ViewGap(site, vs[i], key)
  {
    if vs != [] {
      var front, v := vs[..|vs| - 1], vs[|vs| - 1];
      ViewGaps(site, first, front, key);
      var d := AfterViews(site, first, front);
      OneViewMore(site, d, v, key);
    }
  }

  lemma OneViewMore<R>(site: Site<R>, d: Draft<R>, v: View, key: Key)
    ensures key in AfterView(site, d, v).uncovered <==> key in d.uncovered || ViewGap(site, v, key)
  {
    if Custom(site, v) {
      RegisteringAddsKeys(d.(uncovered := d.uncovered + Missing(site.entries, v.path, Answered(v.verbs))), v.path, Answered(v.verbs));
    }
  }

  /** Exactly the gaps are reported. */
  lemma GapsAreReported<R>(site: Site<R>, key: Key)
    ensures key in Final(site).uncovered <==>
      || (exists i :: 0 <= i < |site.endpoints| && EndpointGap(site, site.endpoints[i], key))
      || (exists i :: 0 <= i < |site.views| && ViewGap(site, site.views[i], key))
  {
    EndpointGaps(site, site.endpoints, key);
    ViewGaps(site, FirstPass(site), site.views, key);
    EntryPass(SecondPass(site), site.entries);
  }

  // ----- When there are no tables -----

  /** A name of letters, digits and underscores that does not start with a digit. */
  ghost predicate GroupName(name: string) {
    && name != "" && !('0' <= name[0] <= '9')
    && forall i :: 0 <= i < |name| ==> 'a' <= name[i] <= 'z' || 'A' <= name[i] <= 'Z' || '0' <= name[i] <= '9' || name[i] == '_'
  }

  /** The named pattern of a template compiles: its parameters are group names, no two the same. */
  ghost predicate Compiles(tokens: seq<Token>) {
    && (forall t :: t in tokens && !t.Literal? ==> GroupName(t.name))
    && (forall i, j :: 0 <= i < |tokens| && 0 <= j < |tokens| && i != j && !tokens[i].Literal? && !tokens[j].Literal? ==> tokens[i].name != tokens[j].name)
  }

  lemma IdentifierIff(s: string)
    ensures IsIdentifier(s) <==> GroupName(s)
  {
    if GroupName(s) {
      assert s[0] in s;
      forall c | c in s ensures IsLetter(c) || '0' <= c <= '9' {
        var i :| 0 <= i < |s| && s[i] == c;
      }
    }
    if IsIdentifier(s) {
      forall i | 0 <= i < |s| ensures s[i] in s { }
    }
  }

  lemma NamedIff(tokens: seq<Token>)
    ensures WellNamed(tokens) <==> Compiles(tokens)
  {
    forall s ensures IsIdentifier(s) <==> GroupName(s) {
      IdentifierIff(s);
    }
  }

  /** Some source registers a template that does not compile. */
  ghost predicate HasBadTemplate<R>(site: Site<R>) {
    exists s :: Counts(site, s) && '<' in KeyAt(site, s).path && !Compiles(Tokens(KeyAt(site, s).path))
  }

  ghost predicate HasGap<R>(site: Site<R>, key: Key) {
    || (exists i :: 0 <= i < |site.endpoints| && EndpointGap(site, site.endpoints[i], key))
    || (exists i :: 0 <= i < |site.views| && ViewGap(site, site.views[i], key))
  }

  lemma BadTemplateIff<R>(site: Site<R>)
    ensures AllWellNamed(Final(site).params) <==> !HasBadTemplate(site)
  {
    TablesFollowSources(site);
    var params := Final(site).params;
    var from :| ParamsFollow(site, params, OfEntry(|site.entries|), from);
    if s :| Counts(site, s) && '<' in KeyAt(site, s).path && !Compiles(Tokens(KeyAt(site, s).path)) {
      NamedIff(Tokens(KeyAt(site, s).path));
      SourceIsListed(site, params, from, s);
    }
    if key :| key in params && !WellNamed(Tokens(key.path)) {
      NamedIff(Tokens(key.path));
      var s := ListedSource(site, params, from, key);
    }
  }

  lemma SourceIsListed<R>(site: Site<R>, params: seq<Key>, from: seq<Source>, s: Source)
    requires ParamsFollow(site, params, OfEntry(|site.entries|), from) && Counts(site, s) && '<' in KeyAt(site, s).path
    ensures KeyAt(site, s) in params
  {
    assert Before(s, OfEntry(|site.entries|));
    assert ListedBy(params, from, KeyAt(site, s), s);
  }

  lemma ListedSource<R>(site: Site<R>, params: seq<Key>, from: seq<Source>, key: Key) returns (s: Source)
    requires ParamsFollow(site, params, OfEntry(|site.entries|), from) && key in params
    ensures Counts(site, s) && KeyAt(site, s) == key && '<' in key.path
  {
    var k :| 0 <= k < |params| && params[k] == key;
    s := from[k];
  }

  /** Start-up fails for a template that does not compile, otherwise for the gaps it reports, and for nothing else. */
  lemma FailuresAreExact<R>(site: Site<R>)
    ensures Compiled(site) == Err(BadTemplate) <==> HasBadTemplate(site)
    ensures Compiled(site).Ok? <==> !HasBadTemplate(site) && forall key :: !HasGap(site, key)
    ensures Compiled(site).Err? && Compiled(site).error.Uncovered? ==> forall key :: key in Compiled(site).error.keys <==> HasGap(site, key)
  {
    BadTemplateIff(site);
    forall key ensures key in Final(site).uncovered <==> HasGap(site, key) {
      GapsAreReported(site, key);
    }
    assert Final(site).uncovered != [] ==> HasGap(site, Final(site).uncovered[0]);
  }
}
