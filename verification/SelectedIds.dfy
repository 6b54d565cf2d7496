/**
 * Two runs of the decision again, now for the request that goes on: the ids that a rule standing alone leaves
 * selected never shrink under larger grants. For the id lists that is said of each source, body and query,
 * with the body as it is or still could be read. For the ids of an authorized scope it is said of what the
 * handler reads from the message, where no list means every id; the filter may have moved the body of a GET
 * to its query before narrowing it, and spellings may differ.
 */
module SelectedIds {
  import opened Wrappers
  import opened Strings
  import opened Json
  import opened Requests
  import opened GetBody
  import opened Narrowing
  import opened IdFilters
  import opened Authority
  import opened Gateway
  import opened Decision
  import opened DecisionMonotonicity

  // ----- Ids by source -----

  function BodyNames(r: Request, key: string): seq<string> {
    NamedInBody(Whole(r), key)
  }

  /** Every id the first request names, the second names in the same source. */
  ghost predicate NamesWithin(small: Request, large: Request, key: string) {
    && (forall id :: id in BodyNames(small, key) ==> id in BodyNames(large, key))
    && (forall id :: id in NamedInQuery(small, key) ==> id in NamedInQuery(large, key))
  }

  lemma LoadingKeepsNames(r: Request, allow: bool, key: string)
    ensures BodyNames(Load(r, allow), key) == BodyNames(r, key) && NamedInQuery(Load(r, allow), key) == NamedInQuery(r, key)
  {
  }

  lemma NamedAreClean(v: Value, id: string)
    requires id in NormalizeValues(v)
    ensures Strip(id) == id && id != ""
  {
  }

  lemma ReadableNamed(v: Value, canRead: string -> bool)
    ensures forall id :: id in Readable(NormalizeValues(v), canRead) <==> id in NormalizeValues(v) && canRead(id)
  {
    forall x | x in NormalizeValues(v) ensures Strip(x) == x && x != "" {
      NamedAreClean(v, x);
    }
  }

  /** Reading the ids of a source keeps those that may be read. */
  ghost predicate Kept(now: seq<string>, before: seq<string>, canRead: string -> bool) {
    forall id :: id in now <==> id in before && canRead(id)
  }

  lemma FilterKeeps(r: Request, key: string, canRead: string -> bool)
    requires FilterIds(r, key, canRead).1
    ensures Kept(NamedInQuery(FilterIds(r, key, canRead).0, key), NamedInQuery(r, key), canRead)
    ensures !Unread(r) ==> Kept(BodyNames(FilterIds(r, key, canRead).0, key), BodyNames(r, key), canRead)
    ensures Unread(r) ==> BodyNames(FilterIds(r, key, canRead).0, key) == BodyNames(r, key)
  {
    FilterIsExact(r, key, canRead);
    if BodyHas(r, key) {
      ReadableNamed(BodyField(r, key), canRead);
    }
    if key in r.query {
      ReadableNamed(r.query[key], canRead);
    }
  }

  /** The id-list policies, their key and reader. */
  predicate IdList(policy: Policy) {
    policy.ExperimentIds? || policy.RunIds?
  }

  function KeyOf(policy: Policy): string {
    if policy.RunIds? then "run_ids" else "experiment_ids"
  }

  lemma AttemptKeeps(env: Env, ws: string, policy: Policy, r: Request)
    requires IdList(policy) && Attempt(env, ws, policy, r).1
    ensures var key, canRead, r' := KeyOf(policy), ReaderOf(env, ws, policy), Attempt(env, ws, policy, r).0;
            && Kept(NamedInQuery(r', key), NamedInQuery(r, key), canRead)
            && if Apply(env, ws, policy, r).1 && Unread(r) then BodyNames(r', key) == BodyNames(r, key)
               else Kept(BodyNames(r', key), BodyNames(r, key), canRead)
  {
    var key, canRead := KeyOf(policy), ReaderOf(env, ws, policy);
    if Apply(env, ws, policy, r).1 {
      FilterKeeps(r, key, canRead);
    } else {
      LoadedIsWhole(r);
      FilterKeeps(Load(r, false), key, canRead);
      LoadingKeepsNames(r, false, key);
    }
  }

  lemma ListAttemptGrows(a: Env, b: Env, ws: string, policy: Policy, r: Request)
    requires Larger(a, b) && IdList(policy) && Attempt(a, ws, policy, r).1 && Attempt(b, ws, policy, r).1
    ensures NamesWithin(Attempt(a, ws, policy, r).0, Attempt(b, ws, policy, r).0, KeyOf(policy))
  {
    ReadersGrow(a, b, ws);
    AttemptKeeps(a, ws, policy, r);
    AttemptKeeps(b, ws, policy, r);
    ApplyGrows(a, b, ws, policy, r);
  }

  // ----- Ids as the handler reads them -----

  /** The handler selects the id: it reads no id list, or one that holds the id. */
  predicate Lets(codec: Codec, f: Field, r: Request, id: string) {
    match HandlerReads(Whole(r), f, codec)
    case Absent => true
    case Refused => false
    case Is(v) => v.List? && Text(id) in v.items
  }

  ghost predicate LetsWithin(codec: Codec, f: Field, small: Request, large: Request) {
    forall id :: Lets(codec, f, small, id) ==> Lets(codec, f, large, id)
  }

  /** The message's experiment ids: a repeated string field, which takes a list of strings as it is. */
  ghost predicate IdField(env: Env, f: Field) {
    && f == Field("experiment_ids", "experimentIds", true) && f in env.fields(AuthorizedIds) && DistinctNames(env.fields(AuthorizedIds))
    && Stable(env.codec) && forall ids :: env.codec.convert(f, TextList(ids)) == Some(TextList(ids))
  }

  /** A request the handler takes, with its body read or still to be read but not both. */
  ghost predicate Takes(env: Env, f: Field, r: Request) {
    (r.body.None? || r.loader.None?) && HandlerReads(Whole(r), f, env.codec) != Refused
  }

  lemma LoadingKeepsLets(env: Env, f: Field, r: Request, allow: bool)
    ensures HandlerReads(Whole(Load(r, allow)), f, env.codec) == HandlerReads(Whole(r), f, env.codec)
    ensures Takes(env, f, r) ==> Takes(env, f, Load(r, allow))
  {
    LoadingKeepsTheWhole(r, allow);
  }

  lemma UsableIsTextList(v: Value, allowScalar: bool)
    requires RequestIds(v, allowScalar).Some?
    ensures v.List? ==> v == TextList(RequestIds(v, allowScalar).value)
    ensures v.Text? ==> List([v]) == TextList(RequestIds(v, allowScalar).value)
  {
    if v.List? {
      forall i | 0 <= i < |v.items| ensures v.items[i] == Text(RequestIds(v, allowScalar).value[i]) {
        assert v.items[i] in v.items;
      }
      assert v.items == TextList(RequestIds(v, allowScalar).value).items;
    }
  }

  lemma InTextList(ids: seq<string>, id: string)
    ensures Text(id) in TextList(ids).items <==> id in ids
  {
    if id in ids {
      var i :| 0 <= i < |ids| && ids[i] == id;
      assert TextList(ids).items[i] == Text(id);
    }
    if Text(id) in TextList(ids).items {
      var i :| 0 <= i < |ids| && TextList(ids).items[i] == Text(id);
      assert ids[i] == id;
    }
  }

  /** A normalised request: a body that is no text, and no GET left with an object body alone. */
  predicate Settled(r: Request) {
    && !(r.body.Some? && r.body.value.Text?) && !Unread(r)
    && (r.verb == "GET" && r.query == map[] ==> !HasObjectBody(r))
  }

  predicate GivesIds(r: Request) {
    BodyHas(r, "experiment_ids") || BodyHas(r, "experimentIds")
  }

  /** What the handler reads from a narrowed request. */
  lemma NarrowedReads(env: Env, f: Field, r: Request, ids: seq<string>)
    requires IdField(env, f) && Settled(r) && (r.verb == "POST" ==> HasObjectBody(r))
    ensures r.verb == "GET" || r.verb == "POST" || GivesIds(r) ==>
              HandlerReads(Whole(Rewrite(r, ids)), f, env.codec) == Is(TextList(ids))
    ensures !(r.verb == "GET" || r.verb == "POST" || GivesIds(r)) ==>
              HandlerReads(Whole(Rewrite(r, ids)), f, env.codec) == Absent && HandlerReads(Whole(r), f, env.codec) == Absent
  {
    assert |"experiment_ids"| == 14 && |"experimentIds"| == 13;
    var r' := Rewrite(r, ids);
    RewriteCarries(r, ids);
    assert Whole(r') == r';
    if r.verb == "GET" {
      assert "experiment_ids" in r'.query && r'.query["experiment_ids"] == TextList(ids);
      assert QueryValue(f, TextList(ids)) == TextList(ids);
    } else if r.verb == "POST" || GivesIds(r) {
      var body := r'.body.value.fields;
      assert Present(f, body) && !BothSpellings(f, body) && GetBody.Given(f, body) == TextList(ids);
    }
  }

  lemma BodyLetsAsked(env: Env, f: Field, r: Request, body: Body, id: string)
    requires IdField(env, f) && r.body == Some(Object(body)) && BodyReading(f, body, env.codec) != Refused
    requires !AskedInBody(r, "experiment_ids").Unusable? && !AskedInBody(r, "experimentIds").Unusable?
    requires Narrowing.Permits(AskedInBody(r, "experiment_ids"), id) && Narrowing.Permits(AskedInBody(r, "experimentIds"), id)
    ensures match BodyReading(f, body, env.codec)
            case Absent => true
            case Refused => false
            case Is(v) => v.List? && Text(id) in v.items
  {
    if Present(f, body) {
      var v := GetBody.Given(f, body);
      UsableIsTextList(v, false);
      InTextList(RequestIds(v, false).value, id);
    }
  }

  lemma QueryLetsAsked(env: Env, f: Field, r: Request, id: string)
    requires IdField(env, f) && "experiment_ids" in r.query && !AskedInQuery(r).Unusable? && Narrowing.Permits(AskedInQuery(r), id)
    ensures Converted(f, QueryValue(f, r.query["experiment_ids"]), env.codec) == Is(TextList(AskedInQuery(r).ids))
    ensures Text(id) in TextList(AskedInQuery(r).ids).items
  {
    var v := r.query["experiment_ids"];
    UsableIsTextList(v, true);
    InTextList(AskedInQuery(r).ids, id);
  }

  /** An id that every asking source asks for is one the handler would read from the request as it is. */
  lemma AskedIsLet(env: Env, f: Field, r: Request, id: string)
    requires IdField(env, f) && Settled(r) && HandlerReads(Whole(r), f, env.codec) != Refused
    requires !AskedInBody(r, "experiment_ids").Unusable? && !AskedInBody(r, "experimentIds").Unusable? && !AskedInQuery(r).Unusable?
    requires Narrowing.Permits(AskedInBody(r, "experiment_ids"), id) && Narrowing.Permits(AskedInBody(r, "experimentIds"), id)
    requires Narrowing.Permits(AskedInQuery(r), id)
    ensures Lets(env.codec, f, r, id)
  {
    if r.verb == "GET" && r.query != map[] {
      if "experiment_ids" in r.query {
        QueryLetsAsked(env, f, r, id);
      }
    } else if HasObjectBody(r) {
      BodyLetsAsked(env, f, r, r.body.value.fields, id);
    }
  }

  /** Narrowing selects nothing the request did not. */
  lemma NarrowingOnlyShrinks(env: Env, f: Field, r: Request, scope: Scope, allowed: Result<seq<string>, ()>)
    requires IdField(env, f) && Settled(r) && HandlerReads(Whole(r), f, env.codec) != Refused
    requires NarrowToScope(r, scope, allowed).1
    ensures LetsWithin(env.codec, f, NarrowToScope(r, scope, allowed).0, r)
  {
    if !scope.broad {
      var ids := Sort(Selected(r, allowed.value));
      NarrowedReads(env, f, r, ids);
      SortKeepsMembers(Selected(r, allowed.value));
      forall id | Lets(env.codec, f, Rewrite(r, ids), id) ensures Lets(env.codec, f, r, id) {
        InTextList(ids, id);
        if id in ids {
          AskedIsLet(env, f, r, id);
        }
      }
    }
  }

  /** A larger scope selects at least the same ids. */
  lemma NarrowingLetsMore(env: Env, f: Field, r: Request, small: Scope, smallIds: Result<seq<string>, ()>, large: Scope, largeIds: Result<seq<string>, ()>)
    requires IdField(env, f) && Settled(r) && HandlerReads(Whole(r), f, env.codec) != Refused
    requires NarrowToScope(r, small, smallIds).1 && NarrowToScope(r, large, largeIds).1
    requires small.broad ==> large.broad
    requires !small.broad && !large.broad ==> forall id :: id in Selected(r, smallIds.value) ==> id in Selected(r, largeIds.value)
    ensures LetsWithin(env.codec, f, NarrowToScope(r, small, smallIds).0, NarrowToScope(r, large, largeIds).0)
  {
    if large.broad {
      NarrowingOnlyShrinks(env, f, r, small, smallIds);
    } else {
      var ids, more := Sort(Selected(r, smallIds.value)), Sort(Selected(r, largeIds.value));
      NarrowedReads(env, f, r, ids);
      NarrowedReads(env, f, r, more);
      SortKeepsMembers(Selected(r, smallIds.value));
      SortKeepsMembers(Selected(r, largeIds.value));
      forall id | Lets(env.codec, f, Rewrite(r, ids), id) ensures Lets(env.codec, f, Rewrite(r, more), id) {
        InTextList(ids, id);
        InTextList(more, id);
      }
    }
  }

  lemma ReadableNarrowingGrows(a: Env, b: Env, ws: string, f: Field, r: Request)
    requires Larger(a, b) && IdField(a, f) && Settled(r) && HandlerReads(Whole(r), f, a.codec) != Refused
    requires NarrowToReadable(a, ws, r).1 && NarrowToReadable(b, ws, r).1
    ensures LetsWithin(a.codec, f, NarrowToReadable(a, ws, r).0, NarrowToReadable(b, ws, r).0)
  {
    var small, large := ScopeOf(a, ws), ScopeOf(b, ws);
    ScopeGrows(a, b, ws);
    if !large.broad {
      IdsGrow(a, b, small.names, large.names);
      forall id | id in Selected(r, IdsOf(a, small.names).value) ensures id in Selected(r, IdsOf(b, large.names).value) { }
    }
    NarrowingLetsMore(a, f, r, small, IdsOf(a, small.names), large, IdsOf(b, large.names));
  }

  /** The request an authorized-ids filter narrows. */
  function Seen(env: Env, r: Request): (Request, bool) {
    Normalized(Load(r, true), env.fields(AuthorizedIds), env.codec)
  }

  lemma SeenIsSettled(env: Env, f: Field, r: Request)
    requires IdField(env, f) && Takes(env, f, r) && Seen(env, r).1
    ensures Settled(Seen(env, r).0) && Seen(env, r).0.loader.None?
    ensures HandlerReads(Whole(Seen(env, r).0), f, env.codec) == HandlerReads(Whole(r), f, env.codec)
  {
    var loaded := Load(r, true);
    LoadingKeepsTheWhole(r, true);
    assert Whole(loaded) == loaded;
    NormalizingKeepsTheMessage(loaded, env.fields(AuthorizedIds), env.codec, f);
  }

  /** The second try of the filter changes nothing: the body had been read. */
  lemma SecondTryIsVain(env: Env, ws: string, f: Field, r: Request)
    requires IdField(env, f) && Takes(env, f, r) && Attempt(env, ws, AuthorizedIds, r).1
    requires forall kind, ws, r :: !env.search(kind, ws, r).1 ==> env.search(kind, ws, r).0 == r
    ensures Seen(env, r).1 && Attempt(env, ws, AuthorizedIds, r) == NarrowToReadable(env, ws, Seen(env, r).0)
  {
    AttemptByParts(env, ws, r);
    if Seen(env, r).1 {
      SeenIsSettled(env, f, r);
      NormalizingIsIdempotent(Load(r, true), env.fields(AuthorizedIds), env.codec);
      TwoTries(env, ws, Load(r, true), Seen(env, r).0);
    } else {
      TwoRefusals(env, ws, Load(r, true), Seen(env, r).0);
    }
  }

  /** The filter tried on a request, and once more on what the first try left. */
  function Tried(env: Env, ws: string, loaded: Request): Outcome {
    var first := Apply(env, ws, AuthorizedIds, loaded);
    if first.1 then first else Apply(env, ws, AuthorizedIds, Load(first.0, false))
  }

  lemma AttemptByParts(env: Env, ws: string, r: Request)
    ensures Attempt(env, ws, AuthorizedIds, r) == Tried(env, ws, Load(r, true))
  {
  }

  lemma TwoRefusals(env: Env, ws: string, loaded: Request, seen: Request)
    requires Normalized(loaded, env.fields(AuthorizedIds), env.codec) == (seen, false) && loaded.loader.None?
    ensures !Tried(env, ws, loaded).1
  {
    RefusedStaysRefused(loaded, env.fields(AuthorizedIds), env.codec);
  }

  lemma TwoTries(env: Env, ws: string, loaded: Request, seen: Request)
    requires Normalized(loaded, env.fields(AuthorizedIds), env.codec) == (seen, true)
    requires Normalized(seen, env.fields(AuthorizedIds), env.codec) == (seen, true) && seen.loader.None?
    ensures Tried(env, ws, loaded) == NarrowToReadable(env, ws, seen)
  {
    ApplyNormalized(env, ws, loaded, seen);
    ApplyNormalized(env, ws, seen, seen);
    FailedReadableNarrowing(env, ws, seen);
    NothingToLoad(seen);
    TriedTwice(env, ws, loaded, seen, NarrowToReadable(env, ws, seen));
  }

  lemma NothingToLoad(r: Request)
    requires r.loader.None?
    ensures Load(r, false) == r
  {
  }

  lemma TriedTwice(env: Env, ws: string, loaded: Request, seen: Request, outcome: Outcome)
    requires Apply(env, ws, AuthorizedIds, loaded) == outcome && Apply(env, ws, AuthorizedIds, seen) == outcome
    requires Load(seen, false) == seen && (!outcome.1 ==> outcome.0 == seen)
    ensures Tried(env, ws, loaded) == outcome
  {
  }

  lemma ApplyNormalized(env: Env, ws: string, r: Request, seen: Request)
    requires Normalized(r, env.fields(AuthorizedIds), env.codec) == (seen, true)
    ensures Apply(env, ws, AuthorizedIds, r) == NarrowToReadable(env, ws, seen)
  {
  }

  lemma FailedReadableNarrowing(env: Env, ws: string, r: Request)
    ensures !NarrowToReadable(env, ws, r).1 ==> NarrowToReadable(env, ws, r).0 == r
  {
    FailedNarrowingChangesNothing(r, ScopeOf(env, ws), IdsOf(env, ScopeOf(env, ws).names));
  }

  lemma RefusedStaysRefused(r: Request, fields: seq<Field>, codec: Codec)
    requires !Normalized(r, fields, codec).1 && r.loader.None?
    ensures var r1 := Normalized(r, fields, codec).0; Load(r1, false) == r1 && !Normalized(r1, fields, codec).1
  {
  }

  lemma AuthorizedAttemptShrinks(env: Env, ws: string, f: Field, r: Request)
    requires IdField(env, f) && Takes(env, f, r) && Attempt(env, ws, AuthorizedIds, r).1
    requires forall kind, ws, r :: !env.search(kind, ws, r).1 ==> env.search(kind, ws, r).0 == r
    ensures LetsWithin(env.codec, f, Attempt(env, ws, AuthorizedIds, r).0, r)
  {
    SecondTryIsVain(env, ws, f, r);
    SeenIsSettled(env, f, r);
    NarrowingOnlyShrinks(env, f, Seen(env, r).0, ScopeOf(env, ws), IdsOf(env, ScopeOf(env, ws).names));
  }

  lemma AuthorizedAttemptGrows(a: Env, b: Env, ws: string, f: Field, r: Request)
    requires Larger(a, b) && IdField(a, f) && Takes(a, f, r)
    requires Attempt(a, ws, AuthorizedIds, r).1 && Attempt(b, ws, AuthorizedIds, r).1
    ensures LetsWithin(a.codec, f, Attempt(a, ws, AuthorizedIds, r).0, Attempt(b, ws, AuthorizedIds, r).0)
  {
    SecondTryIsVain(a, ws, f, r);
    SecondTryIsVain(b, ws, f, r);
    SeenIsSettled(a, f, r);
    ReadableNarrowingGrows(a, b, ws, f, Seen(a, r).0);
  }

  // ----- Both, over a rule -----

  /** A rule that selects ids, and what its request must be like. */
  ghost predicate Selecting(env: Env, f: Field, rule: Rule, r: Request) {
    IdList(rule.policy) || (rule.policy.AuthorizedIds? && IdField(env, f) && Takes(env, f, r))
  }

  /** The second request leaves at least the ids of the first selected. */
  ghost predicate Within(env: Env, f: Field, policy: Policy, small: Request, large: Request) {
    if policy.AuthorizedIds? then LetsWithin(env.codec, f, small, large) else NamesWithin(small, large, KeyOf(policy))
  }

  lemma LoadingKeepsSelection(env: Env, f: Field, rule: Rule, r: Request)
    ensures Within(env, f, rule.policy, Load(r, false), r) && Within(env, f, rule.policy, r, Load(r, false))
    ensures Selecting(env, f, rule, r) ==> Selecting(env, f, rule, Load(r, false))
  {
    LoadingKeepsLets(env, f, r, false);
    LoadingKeepsNames(r, false, KeyOf(rule.policy));
  }

  lemma AttemptGrowsWithin(a: Env, b: Env, ws: string, f: Field, rule: Rule, r: Request)
    requires Larger(a, b) && Selecting(a, f, rule, r) && Attempt(a, ws, rule.policy, r).1 && Attempt(b, ws, rule.policy, r).1
    ensures Within(a, f, rule.policy, Attempt(a, ws, rule.policy, r).0, Attempt(b, ws, rule.policy, r).0)
  {
    if rule.policy.AuthorizedIds? {
      AuthorizedAttemptGrows(a, b, ws, f, r);
    } else {
      ListAttemptGrows(a, b, ws, rule.policy, r);
    }
  }

  lemma AttemptShrinksWithin(env: Env, ws: string, f: Field, rule: Rule, r: Request)
    requires forall kind, ws, r :: !env.search(kind, ws, r).1 ==> env.search(kind, ws, r).0 == r
    requires Selecting(env, f, rule, r) && Attempt(env, ws, rule.policy, r).1
    ensures Within(env, f, rule.policy, Attempt(env, ws, rule.policy, r).0, r)
  {
    if rule.policy.AuthorizedIds? {
      AuthorizedAttemptShrinks(env, ws, f, r);
    } else {
      AttemptKeeps(env, ws, rule.policy, r);
    }
  }

  /** What a rule leaves selects nothing its request did not; granted by name, it selects the same. */
  lemma SelectionOnlyShrinks(env: Env, ws: string, f: Field, rule: Rule, r: Request)
    requires forall kind, ws, r :: !env.search(kind, ws, r).1 ==> env.search(kind, ws, r).0 == r
    requires Selecting(env, f, rule, r) && rule.verb.Some? && rule.resource.Some? && Checked(env, ws, rule, r).1
    ensures Within(env, f, rule.policy, Checked(env, ws, rule, r).0, r)
    ensures ByName(env, ws, rule, r).granted ==> Within(env, f, rule.policy, r, Checked(env, ws, rule, r).0)
  {
    var s := ByName(env, ws, rule, r);
    LoadingKeepsSelection(env, f, rule, r);
    if !s.granted {
      AttemptShrinksWithin(env, ws, f, rule, s.request);
    }
  }

  lemma CheckedGrowsWithin(a: Env, b: Env, ws: string, f: Field, rule: Rule, r: Request)
    requires Larger(a, b) && Selecting(a, f, rule, r) && rule.verb.Some? && rule.resource.Some?
    requires Checked(a, ws, rule, r).1 && Checked(b, ws, rule, r).1
    ensures Within(a, f, rule.policy, Checked(a, ws, rule, r).0, Checked(b, ws, rule, r).0)
  {
    var s, l := ByName(a, ws, rule, r), ByName(b, ws, rule, r);
    MoreAllowed(a, b, ws, rule);
    LoadingKeepsSelection(a, f, rule, r);
    SameSelection(a, b, f, rule, r);
    if l.granted {
      SelectionOnlyShrinks(a, ws, f, rule, r);
      SelectionOnlyShrinks(b, ws, f, rule, r);
    } else {
      assert !s.granted && s.request == l.request;
      AttemptGrowsWithin(a, b, ws, f, rule, s.request);
    }
  }

  lemma SameSelection(a: Env, b: Env, f: Field, rule: Rule, r: Request)
    requires GrantsGrow(a, b)
    ensures Selecting(a, f, rule, r) <==> Selecting(b, f, rule, r)
    ensures forall small, large :: Within(a, f, rule.policy, small, large) <==> Within(b, f, rule.policy, small, large)
  {
  }

  lemma RestGrowsWithin(a: Env, b: Env, ws: string, f: Field, rule: Rule, r: Request)
    requires Larger(a, b) && Selecting(a, f, rule, r) && !GatewayMutation(rule) && rule.verb.Some? && rule.resource.Some?
    requires AfterBudget(a, ws, rule, r).Ok? && AfterBudget(b, ws, rule, r).Ok?
    ensures Within(a, f, rule.policy, AfterBudget(a, ws, rule, r).value, AfterBudget(b, ws, rule, r).value)
  {
    MoreAllowed(a, b, ws, rule);
    LoadingKeepsSelection(a, f, rule, r);
    SameSelection(a, b, f, rule, r);
    if ByName(a, ws, rule, r).exempt {
      if !ByName(b, ws, rule, r).exempt {
        assert ByName(b, ws, rule, r).granted;
        SelectionOnlyShrinks(b, ws, f, rule, r);
      }
    } else {
      assert !ByName(b, ws, rule, r).exempt;
      CheckedGrowsWithin(a, b, ws, f, rule, r);
    }
  }

  /** One id rule, standing alone, and a request its handler takes. */
  ghost predicate Selects(env: Env, f: Field, start: Start) {
    |start.rules| == 1 && !GatewayMutation(start.rules[0]) && Selecting(env, f, start.rules[0], start.request)
  }

  lemma RuleStaysWithin(a: Env, b: Env, ws: Option<string>, f: Field, rule: Rule, r: Request)
    requires Larger(a, b) && Selecting(a, f, rule, r) && !GatewayMutation(rule)
    requires CheckRule(a, ws, rule, r).Ok? && CheckRule(b, ws, rule, r).Ok?
    ensures Within(a, f, rule.policy, CheckRule(a, ws, rule, r).value, CheckRule(b, ws, rule, r).value)
  {
    if rule.verb.Some? {
      RbacByParts(a, ws.value, rule, r);
      RbacByParts(b, ws.value, rule, r);
      LoadingKeepsSelection(a, f, rule, r);
      RestGrowsWithin(a, b, ws.value, f, rule, CheckBudget(rule, r).value);
    }
  }

  lemma FinishingKeepsWithin(env: Env, f: Field, rules: seq<Rule>, rule: Rule, small: Request, large: Request)
    requires Within(env, f, rule.policy, small, large)
    ensures Within(env, f, rule.policy, Finished(rules, small), Finished(rules, large))
  {
    LoadingKeepsSelection(env, f, rule, small);
    LoadingKeepsSelection(env, f, rule, large);
  }

  lemma SelectionStaysWithin(a: Env, b: Env, f: Field, start: Start)
    requires Larger(a, b) && Selects(a, f, start)
    requires CheckRules(a, start.workspace, start.rules, start.request).Ok? && CheckRules(b, start.workspace, start.rules, start.request).Ok?
    ensures Within(a, f, start.rules[0].policy,
                   Finished(start.rules, CheckRules(a, start.workspace, start.rules, start.request).value),
                   Finished(start.rules, CheckRules(b, start.workspace, start.rules, start.request).value))
  {
    var Start(rules, request, ws) := start;
    OneRule(a, ws, rules, request);
    OneRule(b, ws, rules, request);
    RuleStaysWithin(a, b, ws, f, rules[0], request);
    FinishingKeepsWithin(a, f, rules, rules[0], CheckRules(a, ws, rules, request).value, CheckRules(b, ws, rules, request).value);
  }

  /**
   * Growing the grants never shrinks the ids a lone id rule leaves selected: source by source for the id
   * lists, and as the handler reads them, no list meaning all, for the authorized ids.
   */
  lemma SelectedIdsNeverShrink(a: Env, b: Env, cfg: Config, r: Request, f: Field)
    requires Larger(a, b)
    ensures Decided(a, cfg, r).Ok? && Selects(a, f, Prepare(a, cfg, r).value) ==>
              && Decided(b, cfg, r).Ok?
              && Within(a, f, Decided(a, cfg, r).value.rules[0].policy, Decided(a, cfg, r).value.request, Decided(b, cfg, r).value.request)
  {
    if Decided(a, cfg, r).Ok? && Selects(a, f, Prepare(a, cfg, r).value) {
      AcceptedStaysAccepted(a, b, cfg, r);
      SameStart(a, b, cfg, r);
      SelectionStaysWithin(a, b, f, Prepare(a, cfg, r).value);
    }
  }
}
