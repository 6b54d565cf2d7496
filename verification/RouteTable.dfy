/**
 * The authorization tables built at start-up from three sources (`_compile_authorization_rules`), and the
 * lookups on them. Paths are canonical. `R` stands for a rule list.
 */
module RouteTable {
  import opened Wrappers
  import opened Templates

  datatype Key = Key(path: string, verb: string)

  /** A protobuf route. */
  datatype Endpoint = Endpoint(path: string, handler: string, verbs: seq<string>)

  /** A Flask route; its view function may be missing. */
  datatype View = View(path: string, handler: Option<string>, verbs: seq<string>)

  /** An item of PATH_AUTHORIZATION_RULES. */
  datatype Entry<R> = Entry(key: Key, rules: R)

  datatype Site<R> = Site(
    endpoints: seq<Endpoint>,
    handlerRules: map<string, R>,
    views: seq<View>,
    entries: seq<Entry<R>>,
    unprotected: string -> bool)

  datatype Route<R> = Route(key: Key, rules: R)

  datatype Draft<R> = Draft(exact: map<Key, R>, routes: seq<Route<R>>, params: seq<Key>, uncovered: seq<Key>)

  datatype Table<R> = Table(exact: map<Key, R>, routes: seq<Route<R>>, params: seq<Key>)

  datatype Failure = Uncovered(keys: seq<Key>) | BadTemplate

  predicate Templated(path: string) {
    '<' in path
  }

  predicate HasEntry<R>(entries: seq<Entry<R>>, key: Key) {
    exists i :: 0 <= i < |entries| && entries[i].key == key
  }

  // ----- One step of each pass -----

  /** `_register_path_param_pattern`. */
  function Registered<R>(d: Draft<R>, key: Key): Draft<R> {
    if !Templated(key.path) || key in d.params then d else d.(params := d.params + [key])
  }

  function WithRule<R>(d: Draft<R>, key: Key, rules: R): Draft<R> {
    if Templated(key.path) then Registered(d.(routes := d.routes + [Route(key, rules)]), key)
    else d.(exact := d.exact[key := rules])
  }

  function WithRules<R>(d: Draft<R>, path: string, verbs: seq<string>, rules: R): Draft<R> {
    if verbs == [] then d
    else WithRule(WithRules(d, path, verbs[..|verbs| - 1], rules), Key(path, verbs[|verbs| - 1]), rules)
  }

  function AllRegistered<R>(d: Draft<R>, path: string, verbs: seq<string>): Draft<R> {
    if verbs == [] then d
    else Registered(AllRegistered(d, path, verbs[..|verbs| - 1]), Key(path, verbs[|verbs| - 1]))
  }

  function Keys(path: string, verbs: seq<string>): (r: seq<Key>)
    ensures |r| == |verbs|
  {
    seq(|verbs|, i requires 0 <= i < |verbs| => Key(path, verbs[i]))
  }

  /** The keys with no explicit entry. */
  function Missing<R>(entries: seq<Entry<R>>, path: string, verbs: seq<string>): (r: seq<Key>)
    ensures r == [] <==> forall v :: v in verbs ==> HasEntry(entries, Key(path, v))
    ensures forall k :: k in r <==> k.path == path && k.verb in verbs && !HasEntry(entries, k)
  {
    if verbs == [] then []
    else
      var front := Missing(entries, path, verbs[..|verbs| - 1]);
      var key := Key(path, verbs[|verbs| - 1]);
      if HasEntry(entries, key) then front else front + [key]
  }

  predicate Skipped<R>(site: Site<R>, path: string) {
    site.unprotected(path)
  }

  function AfterEndpoint<R>(site: Site<R>, d: Draft<R>, e: Endpoint): Draft<R> {
    if e.path == "" || Skipped(site, e.path) then d
    else if e.handler !in site.handlerRules then
      if Missing(site.entries, e.path, e.verbs) == [] then d else d.(uncovered := d.uncovered + Keys(e.path, e.verbs))
    else WithRules(d, e.path, e.verbs, site.handlerRules[e.handler])
  }

  /** HEAD and OPTIONS aside. */
  function Answered(verbs: seq<string>): (r: seq<string>)
    ensures forall v :: v in r <==> v in verbs && v != "HEAD" && v != "OPTIONS"
  {
    if verbs == [] then []
    else
      var front, last := Answered(verbs[..|verbs| - 1]), verbs[|verbs| - 1];
      if last == "HEAD" || last == "OPTIONS" then front else front + [last]
  }

  /** Whether a view stands on explicit entries alone. */
  predicate Custom<R>(site: Site<R>, v: View) {
    v.handler.Some? && !Skipped(site, v.path) && v.handler.value !in site.handlerRules
  }

  function AfterView<R>(site: Site<R>, d: Draft<R>, v: View): Draft<R> {
    if !Custom(site, v) then d
    else
      AllRegistered(d.(uncovered := d.uncovered + Missing(site.entries, v.path, Answered(v.verbs))), v.path, Answered(v.verbs))
  }

  function AfterEndpoints<R>(site: Site<R>, es: seq<Endpoint>): Draft<R> {
    if es == [] then Draft(map[], [], [], [])
    else AfterEndpoint(site, AfterEndpoints(site, es[..|es| - 1]), es[|es| - 1])
  }

  function AfterViews<R>(site: Site<R>, d: Draft<R>, vs: seq<View>): Draft<R> {
    if vs == [] then d else AfterView(site, AfterViews(site, d, vs[..|vs| - 1]), vs[|vs| - 1])
  }

  function AfterEntries<R>(d: Draft<R>, es: seq<Entry<R>>): Draft<R> {
    if es == [] then d else WithRule(AfterEntries(d, es[..|es| - 1]), es[|es| - 1].key, es[|es| - 1].rules)
  }

  function FirstPass<R>(site: Site<R>): Draft<R> { AfterEndpoints(site, site.endpoints) }

  function SecondPass<R>(site: Site<R>): Draft<R> { AfterViews(site, FirstPass(site), site.views) }

  function Final<R>(site: Site<R>): Draft<R> { AfterEntries(SecondPass(site), site.entries) }

  /** A named pattern compiles: its group names are identifiers, and no two are the same. */
  predicate WellNamed(tokens: seq<Token>) {
    && (forall i :: 0 <= i < |tokens| && !tokens[i].Literal? ==> IsIdentifier(tokens[i].name))
    && (forall i, j :: 0 <= i < j < |tokens| && !tokens[i].Literal? && !tokens[j].Literal? ==> tokens[i].name != tokens[j].name)
  }

  predicate IsLetter(c: char) {
    'a' <= c <= 'z' || 'A' <= c <= 'Z' || c == '_'
  }

  predicate IsIdentifier(s: string) {
    s != "" && IsLetter(s[0]) && forall c :: c in s ==> IsLetter(c) || '0' <= c <= '9'
  }

  predicate AllWellNamed(params: seq<Key>) {
    forall k :: k in params ==> WellNamed(Tokens(k.path))
  }

  function Compiled<R>(site: Site<R>): Result<Table<R>, Failure> {
    var d := Final(site);
    if !AllWellNamed(d.params) then Err(BadTemplate)
    else if d.uncovered != [] then Err(Uncovered(d.uncovered))
    else Ok(Table(d.exact, d.routes, d.params))
  }

  /** `_compile_authorization_rules`. A template that does not compile fails the build whenever it is met. */
  method Compile<R>(site: Site<R>) returns (r: Result<Table<R>, Failure>)
    ensures r == Compiled(site)
  {
    var d: Draft<R> := Draft(map[], [], [], []);
    for i := 0 to |site.endpoints|
      invariant d == AfterEndpoints(site, site.endpoints[..i])
    {
      var e := site.endpoints[i];
      ghost var before := d;
      assert site.endpoints[..i + 1][..i] == site.endpoints[..i];
      if e.path == "" || Skipped(site, e.path) {
        continue;
      }
      if e.handler !in site.handlerRules {
        if Missing(site.entries, e.path, e.verbs) != [] {
          d := d.(uncovered := d.uncovered + Keys(e.path, e.verbs));
        }
        continue;
      }
      for j := 0 to |e.verbs|
        invariant d == WithRules(before, e.path, e.verbs[..j], site.handlerRules[e.handler])
      {
        assert e.verbs[..j + 1][..j] == e.verbs[..j];
        d := WithRule(d, Key(e.path, e.verbs[j]), site.handlerRules[e.handler]);
      }
      assert e.verbs[..|e.verbs|] == e.verbs;
    }
    assert site.endpoints[..|site.endpoints|] == site.endpoints;
    d := ScanViews(site, d);
    for i := 0 to |site.entries|
      invariant d == AfterEntries(SecondPass(site), site.entries[..i])
    {
      assert site.entries[..i + 1][..i] == site.entries[..i];
      d := WithRule(d, site.entries[i].key, site.entries[i].rules);
    }
    assert site.entries[..|site.entries|] == site.entries;
    if !AllWellNamed(d.params) {
      return Err(BadTemplate);
    }
    if d.uncovered != [] {
      return Err(Uncovered(d.uncovered));
    }
    r := Ok(Table(d.exact, d.routes, d.params));
  }

  method ScanViews<R>(site: Site<R>, first: Draft<R>) returns (d: Draft<R>)
    ensures d == AfterViews(site, first, site.views)
  {
    d := first;
    for i := 0 to |site.views|
      invariant d == AfterViews(site, first, site.views[..i])
    {
      var v := site.views[i];
      assert site.views[..i + 1][..i] == site.views[..i];
      if !Custom(site, v) {
        continue;
      }
      var verbs := Answered(v.verbs);
      d := d.(uncovered := d.uncovered + Missing(site.entries, v.path, verbs));
      ghost var before := d;
      for j := 0 to |verbs|
        invariant d == AllRegistered(before, v.path, verbs[..j])
      {
        assert verbs[..j + 1][..j] == verbs[..j];
        d := Registered(d, Key(v.path, verbs[j]));
      }
      assert verbs[..|verbs|] == verbs;
    }
    assert site.views[..|site.views|] == site.views;
  }

  // ----- Lookup -----

  predicate Matches<R>(route: Route<R>, path: string, verb: string) {
    route.key.verb == verb && Accepts(RulePattern(route.key.path), path)
  }

  /** The first route that matches, or the end. */
  function FirstMatch<R>(routes: seq<Route<R>>, path: string, verb: string): (k: nat)
    ensures k <= |routes| && (k < |routes| ==> Matches(routes[k], path, verb))
    ensures forall i :: 0 <= i < k ==> !Matches(routes[i], path, verb)
  {
    if routes == [] || Matches(routes[0], path, verb) then 0 else 1 + FirstMatch(routes[1..], path, verb)
  }

  predicate IsGraphQL(path: string) {
    |path| >= 8 && path[|path| - 8..] == "/graphql"
  }

  /** What `_find_authorization_rules` gives; `graphql` are the rules the request's document derives. */
  function Lookup<R>(t: Table<R>, path: string, verb: string, graphql: Option<R>): Option<R> {
    if Key(path, verb) in t.exact then (if IsGraphQL(path) then graphql else Some(t.exact[Key(path, verb)]))
    else
      var k := FirstMatch(t.routes, path, verb);
      if k < |t.routes| then Some(t.routes[k].rules) else None
  }

  method FindRules<R>(t: Table<R>, path: string, verb: string, graphql: Option<R>) returns (r: Option<R>)
    ensures r == Lookup(t, path, verb, graphql)
  {
    if Key(path, verb) in t.exact {
      return if IsGraphQL(path) then graphql else Some(t.exact[Key(path, verb)]);
    }
    for i := 0 to |t.routes|
      invariant forall j :: 0 <= j < i ==> !Matches(t.routes[j], path, verb)
    {
      if Matches(t.routes[i], path, verb) {
        FirstMatchIs(t.routes, path, verb, i);
        return Some(t.routes[i].rules);
      }
    }
    return None;
  }

  lemma FirstMatchIs<R>(routes: seq<Route<R>>, path: string, verb: string, k: nat)
    requires k < |routes| && Matches(routes[k], path, verb) && forall j :: 0 <= j < k ==> !Matches(routes[j], path, verb)
    ensures FirstMatch(routes, path, verb) == k
  {
  }

  // ----- Coverage -----

  /** Lookup can reach a rule under this key. */
  ghost predicate HasRule<R>(d: Draft<R>, key: Key) {
    if Templated(key.path) then exists i :: 0 <= i < |d.routes| && d.routes[i].key == key else key in d.exact
  }

  /** Nothing an earlier step added is lost. */
  ghost predicate Grows<R>(d: Draft<R>, d': Draft<R>) {
    d.exact.Keys <= d'.exact.Keys && d.routes <= d'.routes
  }

  lemma GrowthKeepsRules<R>(d: Draft<R>, d': Draft<R>)
    requires Grows(d, d')
    ensures forall key :: HasRule(d, key) ==> HasRule(d', key)
  {
    forall key | HasRule(d, key) ensures HasRule(d', key) {
      if Templated(key.path) {
        var i :| 0 <= i < |d.routes| && d.routes[i].key == key;
        assert d'.routes[i].key == key;
      }
    }
  }

  lemma RuleIsAdded<R>(d: Draft<R>, key: Key, rules: R)
    ensures Grows(d, WithRule(d, key, rules)) && HasRule(WithRule(d, key, rules), key)
    ensures WithRule(d, key, rules).uncovered == d.uncovered
    ensures forall k :: k in WithRule(d, key, rules).params ==> k in d.params || (k == key && Templated(key.path))
  {
    var d' := WithRule(d, key, rules);
    if Templated(key.path) {
      assert d'.routes[|d.routes|].key == key;
    }
  }

  lemma {:induction false} RulesAreAdded<R>(d: Draft<R>, path: string, verbs: seq<string>, rules: R)
    ensures var d' := WithRules(d, path, verbs, rules);
            && Grows(d, d') && d'.uncovered == d.uncovered
            && (forall v :: v in verbs ==> HasRule(d', Key(path, v)))
            && (forall k :: k in d'.params ==> k in d.params || (k.path == path && HasRule(d', k)))
  {
    if verbs != [] {
      var front, last := verbs[..|verbs| - 1], verbs[|verbs| - 1];
      assert verbs == front + [last];
      RulesAreAdded(d, path, front, rules);
      var middle := WithRules(d, path, front, rules);
      RuleIsAdded(middle, Key(path, last), rules);
      GrowthKeepsRules(middle, WithRule(middle, Key(path, last), rules));
    }
  }

  predicate EndpointCovered<R>(site: Site<R>, e: Endpoint) {
    || e.path == "" || site.unprotected(e.path) || e.handler in site.handlerRules
    || forall v :: v in e.verbs ==> HasEntry(site.entries, Key(e.path, v))
  }

  predicate ViewCovered<R>(site: Site<R>, v: View) {
    v.handler.Some? && !site.unprotected(v.path) && v.handler.value !in site.handlerRules ==>
      forall m :: m in v.verbs && m != "HEAD" && m != "OPTIONS" ==> HasEntry(site.entries, Key(v.path, m))
  }

  /** An endpoint whose rule comes from its handler. */
  ghost predicate HandlerRuled<R>(site: Site<R>, e: Endpoint) {
    e.path != "" && !site.unprotected(e.path) && e.handler in site.handlerRules
  }

  lemma EndpointStep<R>(site: Site<R>, d: Draft<R>, e: Endpoint)
    ensures var d' := AfterEndpoint(site, d, e);
            && Grows(d, d') && (d'.uncovered == [] <==> d.uncovered == [] && EndpointCovered(site, e))
            && (HandlerRuled(site, e) ==> forall v :: v in e.verbs ==> HasRule(d', Key(e.path, v)))
            && (forall k :: k in d'.params ==> k in d.params || (k.path == e.path && HasRule(d', k)))
  {
    if HandlerRuled(site, e) {
      RulesAreAdded(d, e.path, e.verbs, site.handlerRules[e.handler]);
    } else if Missing(site.entries, e.path, e.verbs) != [] {
      assert |Keys(e.path, e.verbs)| == |e.verbs|;
    }
  }

  ghost predicate HasPath(es: seq<Endpoint>, path: string) {
    exists i :: 0 <= i < |es| && es[i].path == path
  }

  lemma OnePathMore(front: seq<Endpoint>, last: Endpoint)
    ensures forall path :: HasPath(front, path) ==> HasPath(front + [last], path)
    ensures HasPath(front + [last], last.path)
  {
    forall path | HasPath(front, path) ensures HasPath(front + [last], path) {
      var i :| 0 <= i < |front| && front[i].path == path;
      assert (front + [last])[i].path == path;
    }
    assert (front + [last])[|front|].path == last.path;
  }

  lemma {:induction false} EndpointPass<R>(site: Site<R>, es: seq<Endpoint>)
    ensures var d := AfterEndpoints(site, es);
            && (d.uncovered == [] <==> forall i :: 0 <= i < |es| ==> EndpointCovered(site, es[i]))
            && (forall i, v :: 0 <= i < |es| && HandlerRuled(site, es[i]) && v in es[i].verbs ==> HasRule(d, Key(es[i].path, v)))
            && (forall k :: k in d.params ==> HasRule(d, k) && HasPath(es, k.path))
  {
    if es != [] {
      var front, last := es[..|es| - 1], es[|es| - 1];
      EndpointPass(site, front);
      var d := AfterEndpoints(site, front);
      EndpointStep(site, d, last);
      GrowthKeepsRules(d, AfterEndpoint(site, d, last));
      OnePathMore(front, last);
      assert front + [last] == es;
    }
  }

  lemma {:induction false} RegisteringAddsKeys<R>(d: Draft<R>, path: string, verbs: seq<string>)
    ensures var d' := AllRegistered(d, path, verbs);
            && d'.exact == d.exact && d'.routes == d.routes && d'.uncovered == d.uncovered
            && (forall k :: k in d'.params ==> k in d.params || (k.path == path && k.verb in verbs))
  {
    if verbs != [] {
      RegisteringAddsKeys(d, path, verbs[..|verbs| - 1]);
    }
  }

  /** The view pass adds no rules; what it registers without a gap has an explicit entry. */
  lemma {:induction false} ViewPass<R>(site: Site<R>, first: Draft<R>, vs: seq<View>)
    ensures var d := AfterViews(site, first, vs);
            && d.exact == first.exact && d.routes == first.routes
            && (d.uncovered == [] <==> first.uncovered == [] && forall i :: 0 <= i < |vs| ==> ViewCovered(site, vs[i]))
            && (d.uncovered == [] ==> forall k :: k in d.params ==> k in first.params || HasEntry(site.entries, k))
  {
    if vs != [] {
      var front, v := vs[..|vs| - 1], vs[|vs| - 1];
      ViewPass(site, first, front);
      if Custom(site, v) {
        var d := AfterViews(site, first, front);
        var verbs := Answered(v.verbs);
        RegisteringAddsKeys(d.(uncovered := d.uncovered + Missing(site.entries, v.path, verbs)), v.path, verbs);
      }
    }
  }

  lemma {:induction false} EntryPass<R>(d: Draft<R>, es: seq<Entry<R>>)
    ensures var d' := AfterEntries(d, es);
            && Grows(d, d') && d'.uncovered == d.uncovered
            && (forall i :: 0 <= i < |es| ==> HasRule(d', es[i].key))
            && (forall k :: k in d'.params ==> k in d.params || (HasRule(d', k) && HasEntry(es, k)))
  {
    if es != [] {
      var front, last := es[..|es| - 1], es[|es| - 1];
      EntryPass(d, front);
      var middle := AfterEntries(d, front);
      RuleIsAdded(middle, last.key, last.rules);
      GrowthKeepsRules(middle, WithRule(middle, last.key, last.rules));
    }
  }

  ghost predicate Covered<R>(site: Site<R>) {
    && (forall i :: 0 <= i < |site.endpoints| ==> EndpointCovered(site, site.endpoints[i]))
    && (forall i :: 0 <= i < |site.views| ==> ViewCovered(site, site.views[i]))
  }

  /** Start-up reports a gap exactly when a protected endpoint or custom view has neither a handler rule nor explicit entries. */
  lemma GapReportedIff<R>(site: Site<R>)
    ensures Final(site).uncovered == [] <==> Covered(site)
  {
    EndpointPass(site, site.endpoints);
    ViewPass(site, FirstPass(site), site.views);
    EntryPass(SecondPass(site), site.entries);
  }

  /** Every explicit entry and every handler-ruled endpoint is in the tables; so is every registered parameter pattern. */
  lemma TablesAreComplete<R>(site: Site<R>)
    ensures forall i :: 0 <= i < |site.entries| ==> HasRule(Final(site), site.entries[i].key)
    ensures forall i, v :: 0 <= i < |site.endpoints| && HandlerRuled(site, site.endpoints[i]) && v in site.endpoints[i].verbs
                      ==> HasRule(Final(site), Key(site.endpoints[i].path, v))
    ensures Covered(site) ==> forall k :: k in Final(site).params ==>
                      HasRule(Final(site), k) && (HasPath(site.endpoints, k.path) || HasEntry(site.entries, k))
  {
    EndpointPass(site, site.endpoints);
    ViewPass(site, FirstPass(site), site.views);
    EntryPass(SecondPass(site), site.entries);
    GrowthKeepsRules(FirstPass(site), Final(site));
  }

  /** No templated path of the site has a metacharacter other than '.' outside its tokens. */
  ghost predicate PlainSite<R>(site: Site<R>) {
    && (forall i :: 0 <= i < |site.endpoints| ==> PlainLiterals(Tokens(site.endpoints[i].path)))
    && (forall i :: 0 <= i < |site.entries| ==> PlainLiterals(Tokens(site.entries[i].key.path)))
  }

  /** A concrete path of a template. */
  ghost predicate Instance(template: string, path: string) {
    exists captures :: ValidCaptures(Tokens(template), captures) && Substitute(Tokens(template), captures) == path
  }

  lemma {:induction false} NoTokens(s: string, i: nat)
    requires i <= |s| && !Templated(s)
    ensures NextToken(s, i) == |s|
    decreases |s| - i
  {
    if i < |s| {
      assert s[i] in s;
      NoTokens(s, i + 1);
    }
  }

  lemma InstanceOfLiteral(template: string, path: string)
    requires !Templated(template) && Instance(template, path)
    ensures path == template
  {
    NoTokens(template, 0);
    var captures :| ValidCaptures(Tokens(template), captures) && Substitute(Tokens(template), captures) == path;
    assert Tokens(template) == [Literal(template)];
    SubstituteOne(template, captures);
  }

  lemma SubstituteOne(text: string, captures: seq<string>)
    requires ValidCaptures([Literal(text)], captures)
    ensures Substitute([Literal(text)], captures) == text
  {
    assert [Literal(text)][1..] == [];
  }

  lemma InstanceIsAccepted(template: string, path: string)
    requires Instance(template, path) && PlainLiterals(Tokens(template))
    ensures Accepts(NamedPattern(template), path) && Accepts(RulePattern(template), path)
  {
    var captures :| ValidCaptures(Tokens(template), captures) && Substitute(Tokens(template), captures) == path;
    FitsIffSubstitutes(Tokens(template), path, captures);
    MatchIsGreediest(NamedPattern(template), path, captures);
    OneWay(Tokens(template), path);
  }

  lemma RuleIsFound<R>(site: Site<R>, key: Key, path: string, graphql: Option<R>)
    requires Compiled(site).Ok? && HasRule(Final(site), key) && PlainLiterals(Tokens(key.path))
    requires Instance(key.path, path) && !IsGraphQL(path)
    ensures Lookup(Compiled(site).value, path, key.verb, graphql).Some?
  {
    var t := Compiled(site).value;
    if Templated(key.path) {
      InstanceIsAccepted(key.path, path);
      var i :| 0 <= i < |t.routes| && t.routes[i].key == key;
      assert Matches(t.routes[i], path, key.verb);
      assert FirstMatch(t.routes, path, key.verb) <= i;
    } else {
      InstanceOfLiteral(key.path, path);
    }
  }

  /** A route and method the server answers that must be authorized: a protobuf endpoint, or a custom view aside HEAD and OPTIONS. */
  ghost predicate Protected<R>(site: Site<R>, key: Key) {
    || (exists i :: 0 <= i < |site.endpoints| && site.endpoints[i].path == key.path && key.verb in site.endpoints[i].verbs
                    && key.path != "" && !site.unprotected(key.path))
    || (exists i :: 0 <= i < |site.views| && site.views[i].path == key.path && key.verb in site.views[i].verbs
                    && site.views[i].handler.Some? && !site.unprotected(key.path) && site.views[i].handler.value !in site.handlerRules
                    && key.verb != "HEAD" && key.verb != "OPTIONS")
  }

  lemma ProtectedHasRule<R>(site: Site<R>, key: Key)
    requires Covered(site) && Protected(site, key) && PlainSite(site)
    ensures HasRule(Final(site), key) && PlainLiterals(Tokens(key.path))
  {
    TablesAreComplete(site);
    if i :| 0 <= i < |site.endpoints| && site.endpoints[i].path == key.path && key.verb in site.endpoints[i].verbs
            && key.path != "" && !site.unprotected(key.path) {
      assert EndpointCovered(site, site.endpoints[i]);
      if !HandlerRuled(site, site.endpoints[i]) {
        assert HasEntry(site.entries, key);
      }
    } else {
      var i :| 0 <= i < |site.views| && site.views[i].path == key.path && key.verb in site.views[i].verbs
               && site.views[i].handler.Some? && !site.unprotected(key.path) && site.views[i].handler.value !in site.handlerRules
               && key.verb != "HEAD" && key.verb != "OPTIONS";
      assert ViewCovered(site, site.views[i]);
      assert HasEntry(site.entries, key);
    }
  }

  /** If start-up succeeds, every concrete path of every protected route and method is given a rule list. */
  lemma StartupCoverageHoldsAtRunTime<R>(site: Site<R>, key: Key, path: string, graphql: Option<R>)
    requires Compiled(site).Ok? && PlainSite(site) && Protected(site, key)
    requires Instance(key.path, path) && !IsGraphQL(path)
    ensures Lookup(Compiled(site).value, path, key.verb, graphql).Some?
  {
    GapReportedIff(site);
    ProtectedHasRule(site, key);
    RuleIsFound(site, key, path, graphql);
  }

  // ----- Explicit entries -----

  /** A dictionary's keys. */
  ghost predicate DistinctEntries<R>(entries: seq<Entry<R>>) {
    forall i, j :: 0 <= i < j < |entries| ==> entries[i].key != entries[j].key
  }

  lemma {:induction false} LiteralEntries<R>(d: Draft<R>, es: seq<Entry<R>>, i: nat)
    requires i < |es| && DistinctEntries(es) && !Templated(es[i].key.path)
    ensures es[i].key in AfterEntries(d, es).exact && AfterEntries(d, es).exact[es[i].key] == es[i].rules
  {
    if i < |es| - 1 {
      assert es[..|es| - 1][i] == es[i];
      LiteralEntries(d, es[..|es| - 1], i);
      assert es[|es| - 1].key != es[i].key;
    }
  }

  /** An explicit entry for a literal path always wins. */
  lemma LiteralEntryAlwaysWins<R>(site: Site<R>, i: nat, graphql: Option<R>)
    requires Compiled(site).Ok? && DistinctEntries(site.entries) && i < |site.entries|
    requires !Templated(site.entries[i].key.path) && !IsGraphQL(site.entries[i].key.path)
    ensures Lookup(Compiled(site).value, site.entries[i].key.path, site.entries[i].key.verb, graphql) == Some(site.entries[i].rules)
  {
    LiteralEntries(SecondPass(site), site.entries, i);
    assert Key(site.entries[i].key.path, site.entries[i].key.verb) == site.entries[i].key;
  }

  /** The templated entries, in order. */
  function EntryRoutes<R>(es: seq<Entry<R>>): seq<Route<R>> {
    if es == [] then []
    else
      var front, last := EntryRoutes(es[..|es| - 1]), es[|es| - 1];
      if Templated(last.key.path) then front + [Route(last.key, last.rules)] else front
  }

  lemma {:induction false} EntriesComeLast<R>(d: Draft<R>, es: seq<Entry<R>>)
    ensures AfterEntries(d, es).routes == d.routes + EntryRoutes(es)
  {
    if es != [] {
      EntriesComeLast(d, es[..|es| - 1]);
    }
  }

  /** Where entry `i` is among the templated ones. */
  lemma {:induction false} RouteOfEntry<R>(es: seq<Entry<R>>, i: nat)
    requires i < |es| && Templated(es[i].key.path)
    ensures EntryRoutes(es[..i]) + [Route(es[i].key, es[i].rules)] <= EntryRoutes(es)
    decreases |es|
  {
    if i == |es| - 1 {
      assert es[..i] == es[..|es| - 1];
    } else {
      var front := es[..|es| - 1];
      assert front[i] == es[i] && front[..i] == es[..i];
      RouteOfEntry(front, i);
    }
  }

  /** Some rule is found before entry `i`: an exact one, one derived from a handler, or an earlier templated entry. */
  ghost predicate Shadowed<R>(site: Site<R>, i: nat, path: string)
    requires i < |site.entries|
  {
    var verb := site.entries[i].key.verb;
    || Key(path, verb) in Final(site).exact
    || (exists k :: 0 <= k < |FirstPass(site).routes| && Matches(FirstPass(site).routes[k], path, verb))
    || (exists k :: 0 <= k < |EntryRoutes(site.entries[..i])| && Matches(EntryRoutes(site.entries[..i])[k], path, verb))
  }

  /** Where entry `i`, when templated, stands in the route list. */
  ghost function Place<R>(site: Site<R>, i: nat): nat
    requires i < |site.entries|
  {
    |FirstPass(site).routes| + |EntryRoutes(site.entries[..i])|
  }

  lemma EntryHasPlace<R>(site: Site<R>, i: nat)
    requires i < |site.entries| && Templated(site.entries[i].key.path)
    ensures var earlier, routes := FirstPass(site).routes + EntryRoutes(site.entries[..i]), Final(site).routes;
            && earlier <= routes && |earlier| == Place(site, i) < |routes|
            && routes[Place(site, i)] == Route(site.entries[i].key, site.entries[i].rules)
  {
    ViewPass(site, FirstPass(site), site.views);
    EntriesComeLast(SecondPass(site), site.entries);
    RouteOfEntry(site.entries, i);
    var first, earlier, own, all := FirstPass(site).routes, EntryRoutes(site.entries[..i]), Route(site.entries[i].key, site.entries[i].rules), EntryRoutes(site.entries);
    PrefixUnder(first, earlier + [own], all);
    assert (earlier + [own])[|earlier|] == all[|earlier|];
  }

  lemma PrefixUnder<T>(a: seq<T>, b: seq<T>, c: seq<T>)
    requires b <= c
    ensures a + b <= a + c
  {
  }

  /**
   * The search for a concrete path of a templated entry ends at that entry exactly when nothing shadows it; so
   * explicit templates do not always win.
   */
  lemma TemplatedEntryWinsIff<R>(site: Site<R>, i: nat, path: string, graphql: Option<R>)
    requires Compiled(site).Ok? && PlainSite(site) && i < |site.entries|
    requires Templated(site.entries[i].key.path) && Instance(site.entries[i].key.path, path)
    ensures var t, key := Compiled(site).value, site.entries[i].key;
            && ((Key(path, key.verb) !in t.exact && FirstMatch(t.routes, path, key.verb) == Place(site, i)) <==> !Shadowed(site, i, path))
            && (!Shadowed(site, i, path) ==> Lookup(t, path, key.verb, graphql) == Some(site.entries[i].rules))
  {
    EntryHasPlace(site, i);
    InstanceIsAccepted(site.entries[i].key.path, path);
    ReachedIff(site, i, path, Final(site), FirstPass(site).routes, EntryRoutes(site.entries[..i]));
  }

  lemma ReachedIff<R>(site: Site<R>, i: nat, path: string, d: Draft<R>, first: seq<Route<R>>, earlier: seq<Route<R>>)
    requires i < |site.entries| && d == Final(site) && first == FirstPass(site).routes && earlier == EntryRoutes(site.entries[..i])
    requires |first| + |earlier| < |d.routes| && first + earlier <= d.routes
    requires Matches(d.routes[|first| + |earlier|], path, site.entries[i].key.verb)
    ensures var verb := site.entries[i].key.verb;
            (Key(path, verb) !in d.exact && FirstMatch(d.routes, path, verb) == |first| + |earlier|) <==> !Shadowed(site, i, path)
  {
    FirstBefore(d.routes, path, site.entries[i].key.verb, first, earlier);
  }

  lemma FirstBefore<R>(routes: seq<Route<R>>, path: string, verb: string, first: seq<Route<R>>, earlier: seq<Route<R>>)
    requires |first| + |earlier| < |routes| && Matches(routes[|first| + |earlier|], path, verb)
    requires first + earlier <= routes
    ensures FirstMatch(routes, path, verb) == |first| + |earlier| <==>
      && (forall k :: 0 <= k < |first| ==> !Matches(first[k], path, verb))
      && (forall k :: 0 <= k < |earlier| ==> !Matches(earlier[k], path, verb))
  {
    var f := FirstMatch(routes, path, verb);
    assert forall k :: 0 <= k < |first| ==> routes[k] == (first + earlier)[k] == first[k];
    assert forall k :: 0 <= k < |earlier| ==> routes[|first| + k] == (first + earlier)[|first| + k] == earlier[k];
    if f < |first| {
      assert Matches(first[f], path, verb);
    } else if f < |first| + |earlier| {
      assert Matches(earlier[f - |first|], path, verb);
    } else {
      forall k | 0 <= k < |earlier| ensures !Matches(earlier[k], path, verb) {
        assert !Matches(routes[|first| + k], path, verb);
      }
    }
  }

  lemma OneSegment(c: char)
    requires c != '>' && c != '<'
    ensures Tokens(['/', '<', c, '>']) == [Literal("/"), Plain([c]), Literal("")]
  {
    var s := ['/', '<', c, '>'];
    assert Close(s, 2) == 3;
    assert TokenAt(s, 1) && NextToken(s, 0) == 1;
    assert s[0..1] == "/" && s[2..3] == [c] && s[4..] == "";
    assert TokensFrom(s, 4) == [Literal("")];
    assert TokensFrom(s, 0) == Step(s, 0, 1) + TokensFrom(s, 4);
  }

  lemma OneSegmentSubstitutes(tokens: seq<Token>)
    requires |tokens| == 3 && tokens[0] == Literal("/") && tokens[1].Plain? && tokens[2] == Literal("")
    ensures ValidCaptures(tokens, ["c"]) && Substitute(tokens, ["c"]) == "/c"
  {
    var end := tokens[1..][1..];
    assert end == [Literal("")] && end[1..] == [] && ["c"][1..] == [];
    SubstituteOne("", []);
    assert ValidCaptures(tokens[1..], ["c"]) && Substitute(tokens[1..], ["c"]) == "c";
  }

  lemma OneSegmentInstance(c: char)
    requires c != '>' && c != '<'
    ensures Instance(['/', '<', c, '>'], "/c") && PlainLiterals(Tokens(['/', '<', c, '>']))
    ensures IsLetter(c) ==> WellNamed(Tokens(['/', '<', c, '>']))
  {
    OneSegment(c);
    OneSegmentSubstitutes(Tokens(['/', '<', c, '>']));
  }

  /** A handler-ruled endpoint and an explicit entry whose templates read the same paths. */
  function ShadowingSite(): Site<int> {
    Site([Endpoint("/<a>", "h", ["GET"])], map["h" := 1], [], [Entry(Key("/<b>", "GET"), 2)], (p: string) => false)
  }

  lemma ShadowingTables()
    ensures Final(ShadowingSite()) ==
      Draft(map[], [Route(Key("/<a>", "GET"), 1), Route(Key("/<b>", "GET"), 2)], [Key("/<a>", "GET"), Key("/<b>", "GET")], [])
  {
    var site := ShadowingSite();
    assert "/<a>"[1] == '<' && "/<b>"[1] == '<';
    var first: Draft<int> := Draft(map[], [Route(Key("/<a>", "GET"), 1)], [Key("/<a>", "GET")], []);
    assert WithRules(Draft(map[], [], [], []), "/<a>", ["GET"], 1) == first;
    assert FirstPass(site) == first;
    assert AfterEntries(first, site.entries) == WithRule(first, Key("/<b>", "GET"), 2);
  }

  /** A templated explicit entry that never wins: an endpoint's own rule is found first. */
  lemma TemplatedEntryCanBeShadowed()
    ensures var site := ShadowingSite();
            && Compiled(site).Ok? && Instance("/<b>", "/c") && site.entries == [Entry(Key("/<b>", "GET"), 2)]
            && Lookup(Compiled(site).value, "/c", "GET", None) == Some(1)
  {
    ShadowingTables();
    OneSegmentInstance('a');
    OneSegmentInstance('b');
    InstanceIsAccepted("/<a>", "/c");
    FirstRouteWins(ShadowingSite(), Key("/<a>", "GET"), Key("/<b>", "GET"), "/c");
  }

  lemma FirstRouteWins(site: Site<int>, a: Key, b: Key, path: string)
    requires Final(site) == Draft(map[], [Route(a, 1), Route(b, 2)], [a, b], [])
    requires WellNamed(Tokens(a.path)) && WellNamed(Tokens(b.path)) && Accepts(RulePattern(a.path), path)
    ensures Compiled(site).Ok? && Lookup(Compiled(site).value, path, a.verb, None) == Some(1)
  {
    var d := Final(site);
    assert Matches(d.routes[0], path, a.verb);
  }

  // ----- Path parameters -----

  /** The first registered template whose named pattern matches. */
  function FirstParams(params: seq<Key>, path: string, verb: string): (k: nat)
    ensures k <= |params|
    ensures k < |params| ==> params[k].verb == verb && Accepts(NamedPattern(params[k].path), path)
    ensures forall i :: 0 <= i < k ==> !(params[i].verb == verb && Accepts(NamedPattern(params[i].path), path))
  {
    if params == [] || (params[0].verb == verb && Accepts(NamedPattern(params[0].path), path)) then 0
    else 1 + FirstParams(params[1..], path, verb)
  }

  /** `groupdict`. */
  function Named(tokens: seq<Token>, captures: seq<string>): map<string, string> {
    if tokens == [] then map[]
    else if tokens[0].Literal? then Named(tokens[1..], captures)
    else if captures == [] then map[]
    else Named(tokens[1..], captures[1..])[tokens[0].name := captures[0]]
  }

  function PathParams<R>(t: Table<R>, path: string, verb: string): map<string, string> {
    var k := FirstParams(t.params, path, verb);
    if k == |t.params| then map[]
    else Named(Tokens(t.params[k].path), FullMatch(NamedPattern(t.params[k].path), path).value)
  }

  /** `_extract_path_params`. */
  method ExtractPathParams<R>(t: Table<R>, path: string, verb: string) returns (r: map<string, string>)
    ensures r == PathParams(t, path, verb)
  {
    for i := 0 to |t.params|
      invariant FirstParams(t.params, path, verb) == i + FirstParams(t.params[i..], path, verb)
    {
      assert t.params[i..][1..] == t.params[i + 1..];
      if t.params[i].verb != verb {
        continue;
      }
      var m := FullMatch(NamedPattern(t.params[i].path), path);
      if m.Some? {
        return Named(Tokens(t.params[i].path), m.value);
      }
    }
    return map[];
  }

  /** The path a template gives for named parameters. */
  function Filled(tokens: seq<Token>, values: map<string, string>): string {
    if tokens == [] then ""
    else
      var t := tokens[0];
      (if t.Literal? then t.text else if t.name in values then values[t.name] else "") + Filled(tokens[1..], values)
  }

  lemma {:induction false} NamedMisses(tokens: seq<Token>, captures: seq<string>, name: string)
    requires forall i :: 0 <= i < |tokens| && !tokens[i].Literal? ==> tokens[i].name != name
    ensures name !in Named(tokens, captures)
  {
    if tokens != [] {
      NamedMisses(tokens[1..], if tokens[0].Literal? || captures == [] then captures else captures[1..], name);
    }
  }

  lemma {:induction false} FilledIgnores(tokens: seq<Token>, values: map<string, string>, name: string, value: string)
    requires forall i :: 0 <= i < |tokens| && !tokens[i].Literal? ==> tokens[i].name != name
    ensures Filled(tokens, values[name := value]) == Filled(tokens, values)
  {
    if tokens != [] {
      FilledIgnores(tokens[1..], values, name, value);
    }
  }

  lemma {:induction false} FillingRebuilds(tokens: seq<Token>, captures: seq<string>)
    requires WellNamed(tokens) && ValidCaptures(tokens, captures)
    ensures Filled(tokens, Named(tokens, captures)) == Substitute(tokens, captures)
  {
    if tokens != [] {
      assert WellNamed(tokens[1..]) by {
        assert forall i :: 0 <= i < |tokens| - 1 ==> tokens[1..][i] == tokens[i + 1];
      }
      if tokens[0].Literal? {
        FillingRebuilds(tokens[1..], captures);
      } else {
        FillingRebuilds(tokens[1..], captures[1..]);
        FilledIgnores(tokens[1..], Named(tokens[1..], captures[1..]), tokens[0].name, captures[0]);
      }
    }
  }

  /**
   * When a registered template matches a path, its extracted parameters rebuild the path, and lookup gives the
   * request a rule list: parameters never come without rules.
   */
  lemma ExtractedParamsComeWithRules<R>(site: Site<R>, path: string, verb: string, graphql: Option<R>)
    requires Compiled(site).Ok? && PlainSite(site) && !IsGraphQL(path)
    requires FirstParams(Compiled(site).value.params, path, verb) < |Compiled(site).value.params|
    ensures var t := Compiled(site).value;
            && Filled(Tokens(t.params[FirstParams(t.params, path, verb)].path), PathParams(t, path, verb)) == path
            && Lookup(t, path, verb, graphql).Some?
  {
    var t := Compiled(site).value;
    var key := t.params[FirstParams(t.params, path, verb)];
    var captures := FullMatch(NamedPattern(key.path), path).value;
    ExtractionRoundTrip(key.path, path);
    assert WellNamed(Tokens(key.path));
    FillingRebuilds(Tokens(key.path), captures);
    assert Instance(key.path, path);
    GapReportedIff(site);
    TablesAreComplete(site);
    RuleIsFound(site, key, path, graphql);
  }
}
