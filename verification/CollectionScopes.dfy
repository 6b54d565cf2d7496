/**
 * Which names of a resource type the caller may read (`discover_collection_scope`). Rules reviews only
 * suggest candidates; every name that ends up in the scope has passed an access review of its own.
 */
module CollectionScopes {
  import opened Wrappers
  import opened Strings

  datatype CollectionScope = CollectionScope(broad: bool, names: seq<string>)

  /** One resource rule of a rules review. */
  datatype ReviewRule = ReviewRule(groups: set<string>, resources: set<string>, verbs: set<string>, names: seq<string>)

  /** `get` reviews: on the whole type (`None` is modelled by `broad`), or on one name. */
  datatype Reviews = Reviews(broad: bool, named: string -> bool)

  predicate Applies(rule: ReviewRule, group: string, resource: string) {
    && (group in rule.groups || "*" in rule.groups)
    && (resource in rule.resources || "*" in rule.resources)
    && ("get" in rule.verbs || "list" in rule.verbs || "*" in rule.verbs)
  }

  /** The rule is about the resource, lets it be read, and has the name. */
  ghost predicate ReadsByName(rule: ReviewRule, group: string, resource: string, name: string) {
    && rule.groups * {group, "*"} != {} && rule.resources * {resource, "*"} != {} && rule.verbs * {"get", "*"} != {}
    && name in rule.names && name != ""
  }

  lemma ReadsIff(rule: ReviewRule, group: string, resource: string, name: string)
    ensures ReadsByName(rule, group, resource, name) <==>
      Applies(rule, group, resource) && ("get" in rule.verbs || "*" in rule.verbs) && name in rule.names && name != ""
  {
    assert forall s: set<string>, x: string :: x in s ==> x in s * {x, "*"};
    assert forall s: set<string>, x: string :: "*" in s ==> "*" in s * {x, "*"};
  }

  /** Some rule lets the resource be read by this name. */
  ghost predicate Candidate(rules: seq<ReviewRule>, group: string, resource: string, name: string) {
    exists rule :: rule in rules && ReadsByName(rule, group, resource, name)
  }

  method CollectCandidates(rules: seq<ReviewRule>, group: string, resource: string) returns (candidates: set<string>)
    ensures forall name :: name in candidates <==> Candidate(rules, group, resource, name)
  {
    candidates := {};
    for i := 0 to |rules|
      invariant forall name :: name in candidates <==> exists j :: 0 <= j < i && ReadsByName(rules[j], group, resource, name)
    {
      var rule := rules[i];
      forall name ensures ReadsByName(rule, group, resource, name) <==>
        Applies(rule, group, resource) && ("get" in rule.verbs || "*" in rule.verbs) && name in rule.names && name != ""
      {
        ReadsIff(rule, group, resource, name);
      }
      if !Applies(rule, group, resource) {
        continue;
      }
      if "get" in rule.verbs || "*" in rule.verbs {
        candidates := candidates + (set name | name in rule.names && name != "");
      }
    }
  }

  /** The elements of a set, in some order. */
  method Elements(s: set<string>) returns (r: seq<string>)
    ensures forall x :: x in r <==> x in s
    ensures forall i, j :: 0 <= i < j < |r| ==> r[i] != r[j]
  {
    r := [];
    var left := s;
    while left != {}
      invariant left <= s && (forall x :: x in r <==> x in s - left)
      invariant forall i, j :: 0 <= i < j < |r| ==> r[i] != r[j]
      decreases left
    {
      var x :| x in left;
      assert x !in r && forall i :: 0 <= i < |r| ==> r[i] in r;
      r := r + [x];
      left := left - {x};
    }
  }

  /** The candidates whose own access review passes, in order. */
  method Confirm(ordered: seq<string>, named: string -> bool) returns (names: seq<string>)
    requires Ordered(ordered)
    ensures Ordered(names) && forall name :: name in names <==> name in ordered && named(name)
  {
    names := [];
    for i := 0 to |ordered|
      invariant forall name :: name in names <==> name in ordered[..i] && named(name)
      invariant Ordered(names) && forall a, j :: 0 <= a < |names| && i <= j < |ordered| ==> Leq(names[a], ordered[j])
    {
      assert ordered[..i + 1] == ordered[..i] + [ordered[i]];
      if named(ordered[i]) {
        names := names + [ordered[i]];
      }
    }
    assert ordered[..|ordered|] == ordered;
  }

  /** How a rules review ends: refused or unreachable, unusable, or with its rules. */
  datatype RulesReview = Failed | Unusable | Complete(rules: seq<ReviewRule>)

  /**
   * `discover_collection_scope`, with the rules cached for the caller and the review that would be submitted
   * otherwise. Broad read access needs no names. Otherwise the scope is, in order, exactly the candidates of
   * the rules in use that an access review allows; it fails, and caches nothing, exactly if there are no
   * cached rules and the review gives none.
   */
  method DiscoverScope(reviews: Reviews, cached: Option<seq<ReviewRule>>, review: RulesReview, group: string, resource: string)
    returns (scope: Result<CollectionScope, ()>, toCache: Option<seq<ReviewRule>>)
    ensures scope.Err? <==> !reviews.broad && cached.None? && !review.Complete?
    ensures toCache.Some? <==> !reviews.broad && cached.None? && review.Complete?
    ensures toCache.Some? ==> toCache.value == review.rules
    ensures reviews.broad ==> scope == Ok(CollectionScope(true, []))
    ensures scope.Ok? && !reviews.broad ==>
              var rules := if cached.Some? then cached.value else review.rules;
              && !scope.value.broad && Ordered(scope.value.names)
              && forall name :: name in scope.value.names <==> Candidate(rules, group, resource, name) && reviews.named(name)
  {
    toCache := None;
    if reviews.broad {
      return Ok(CollectionScope(true, [])), None;
    }
    var rules: seq<ReviewRule>;
    if cached.Some? {
      rules := cached.value;
    } else if review.Complete? {
      rules := review.rules;
      toCache := Some(rules);
    } else {
      return Err(()), None;
    }
    var candidates := CollectCandidates(rules, group, resource);
    var elements := Elements(candidates);
    var ordered := Sort(elements);
    SortIsOrdered(elements);
    forall name ensures name in ordered <==> name in candidates {
      assert name in ordered <==> name in multiset(ordered);
      assert name in elements <==> name in multiset(elements);
    }
    var names := Confirm(ordered, reviews.named);
    scope := Ok(CollectionScope(false, names));
  }
}
