/**
 * Narrowing a collection request to the ids its caller may read: to the ids of the names in an authorized
 * scope (`_filter_request_authorized_experiment_ids`), or by checking each id the request carries
 * (`_filter_request_experiment_ids` and its siblings).
 */
module Narrowing {
  import opened Wrappers
  import opened Strings
  import opened Json
  import opened Requests

  /** A rewritten request, and whether the narrowing applied; when it did not, the request is unchanged. */
  type Outcome = (Request, bool)

  // ----- The authorized scope -----

  datatype Scope = Scope(broad: bool, names: seq<string>)

  /** `request_ids`: a non-empty list of non-empty strings, or one such string where a scalar is allowed. */
  function RequestIds(v: Value, allowScalar: bool): Option<seq<string>> {
    match v
    case Text(s) => if allowScalar && s != "" then Some([s]) else None
    case List(items) => if items != [] && forall i :: i in items ==> i.Text? && i.s != "" then Some(Texts(items)) else None
    case _ => None
  }

  function Texts(items: seq<Value>): (r: seq<string>)
    requires forall i :: i in items ==> i.Text?
    ensures |r| == |items| && forall j :: 0 <= j < |items| ==> r[j] == items[j].s
  {
    seq(|items|, j requires 0 <= j < |items| => items[j].s)
  }

  /** The ids a source asks for, if it names any; an unusable value is an error. */
  datatype Asked = Silent | Unusable | Ids(ids: seq<string>)

  function AskedInBody(r: Request, key: string): Asked {
    if !BodyHas(r, key) then Silent
    else
      var ids := RequestIds(BodyField(r, key), false);
      if ids.Some? then Ids(ids.value) else Unusable
  }

  function AskedInQuery(r: Request): Asked {
    if "experiment_ids" !in r.query then Silent
    else
      var ids := RequestIds(r.query["experiment_ids"], true);
      if ids.Some? then Ids(ids.value) else Unusable
  }

  /** Absent means unrestricted. */
  predicate Permits(a: Asked, id: string) {
    a.Ids? ==> id in a.ids
  }

  function KeepPermitted(ids: seq<string>, a: Asked): (r: seq<string>)
    ensures forall id :: id in r <==> id in ids && Permits(a, id)
    ensures (forall i, j :: 0 <= i < j < |ids| ==> ids[i] != ids[j]) ==> forall i, j :: 0 <= i < j < |r| ==> r[i] != r[j]
  {
    if ids == [] then []
    else
      var front := KeepPermitted(ids[..|ids| - 1], a);
      var last := ids[|ids| - 1];
      if Permits(a, last) then front + [last] else front
  }

  function Selected(r: Request, allowed: seq<string>): seq<string> {
    KeepPermitted(KeepPermitted(KeepPermitted(allowed, AskedInBody(r, "experiment_ids")), AskedInBody(r, "experimentIds")), AskedInQuery(r))
  }

  /** The rewrite once the ids are known. */
  function Rewrite(r: Request, ids: seq<string>): Request {
    var named := BodyHas(r, "experiment_ids") || BodyHas(r, "experimentIds");
    var withBody :=
      if (named || r.verb == "POST") && HasObjectBody(r) then
        r.(body := Some(Object((r.body.value.fields - {"experiment_ids", "experimentIds"})["experiment_ids" := TextList(ids)])))
      else r;
    if "experiment_ids" in r.query || r.verb != "POST" then withBody.(query := r.query["experiment_ids" := TextList(ids)]) else withBody
  }

  /** `allowed` are the ids of the scope's names, or an error if some name could not be resolved. */
  function NarrowToScope(r: Request, scope: Scope, allowed: Result<seq<string>, ()>): Outcome {
    if scope.broad then (r, true)
    else if scope.names == [] || allowed.Err? || allowed.value == [] then (r, false)
    else if AskedInBody(r, "experiment_ids").Unusable? || AskedInBody(r, "experimentIds").Unusable? || AskedInQuery(r).Unusable? then (r, false)
    else if Selected(r, allowed.value) == [] then (r, false)
    else if r.verb == "POST" && !HasObjectBody(r) then (r, false)
    else (Rewrite(r, Sort(Selected(r, allowed.value))), true)
  }

  /** The id list a handler reads from the rewritten request: its body for POST, its query otherwise. */
  function HandlerIds(r: Request): Option<Value> {
    if r.verb == "POST" then (if BodyHas(r, "experiment_ids") then Some(BodyField(r, "experiment_ids")) else None)
    else if "experiment_ids" in r.query then Some(r.query["experiment_ids"]) else None
  }

  /** A list with the id, or, where a scalar will do, the id itself. */
  predicate Lists(v: Value, scalar: bool, id: string) {
    (v.List? && Text(id) in v.items) || (scalar && v == Text(id))
  }

  /** A list of at least one text, none empty, or, where a scalar will do, one such text. */
  predicate Legible(v: Value, scalar: bool) {
    || (v.List? && v.items != [] && forall item :: item in v.items ==> item.Text? && item.s != "")
    || (scalar && v.Text? && v.s != "")
  }

  /** Allowed, and listed wherever ids are: in the body, under either spelling, and in the query. */
  predicate Wanted(r: Request, allowed: seq<string>, id: string) {
    && id in allowed
    && (BodyHas(r, "experiment_ids") ==> Lists(r.body.value.fields["experiment_ids"], false, id))
    && (BodyHas(r, "experimentIds") ==> Lists(r.body.value.fields["experimentIds"], false, id))
    && ("experiment_ids" in r.query ==> Lists(r.query["experiment_ids"], true, id))
  }

  /** Every source that lists ids can be read. */
  predicate SourcesLegible(r: Request) {
    && (BodyHas(r, "experiment_ids") ==> Legible(r.body.value.fields["experiment_ids"], false))
    && (BodyHas(r, "experimentIds") ==> Legible(r.body.value.fields["experimentIds"], false))
    && ("experiment_ids" in r.query ==> Legible(r.query["experiment_ids"], true))
  }

  lemma RequestIdsIff(v: Value, scalar: bool, id: string)
    ensures RequestIds(v, scalar).Some? <==> Legible(v, scalar)
    ensures Legible(v, scalar) ==> (id in RequestIds(v, scalar).value <==> Lists(v, scalar, id))
  {
    if v.List? && Legible(v, scalar) {
      if Text(id) in v.items {
        var j :| 0 <= j < |v.items| && v.items[j] == Text(id);
        assert Texts(v.items)[j] == id;
      }
      if id in Texts(v.items) {
        var j :| 0 <= j < |v.items| && Texts(v.items)[j] == id;
        assert v.items[j] in v.items;
        assert v.items[j] == Text(id);
      }
    }
  }

  lemma AskedIff(r: Request, key: string, id: string)
    ensures AskedInBody(r, key).Unusable? <==> BodyHas(r, key) && !Legible(r.body.value.fields[key], false)
    ensures !AskedInBody(r, key).Unusable? ==>
              (Permits(AskedInBody(r, key), id) <==> (BodyHas(r, key) ==> Lists(r.body.value.fields[key], false, id)))
    ensures AskedInQuery(r).Unusable? <==> "experiment_ids" in r.query && !Legible(r.query["experiment_ids"], true)
    ensures !AskedInQuery(r).Unusable? ==>
              (Permits(AskedInQuery(r), id) <==> ("experiment_ids" in r.query ==> Lists(r.query["experiment_ids"], true, id)))
  {
    if BodyHas(r, key) {
      RequestIdsIff(r.body.value.fields[key], false, id);
    }
    if "experiment_ids" in r.query {
      RequestIdsIff(r.query["experiment_ids"], true, id);
    }
  }

  /** Where every source can be read, the ids selected are the wanted ones. */
  lemma SelectedIff(r: Request, allowed: seq<string>, id: string)
    ensures SourcesLegible(r) <==>
      !AskedInBody(r, "experiment_ids").Unusable? && !AskedInBody(r, "experimentIds").Unusable? && !AskedInQuery(r).Unusable?
    ensures SourcesLegible(r) ==> (id in Selected(r, allowed) <==> Wanted(r, allowed, id))
  {
    AskedIff(r, "experiment_ids", id);
    AskedIff(r, "experimentIds", id);
  }

  lemma SortKeepsMembers(ids: seq<string>)
    ensures forall id :: id in Sort(ids) <==> id in ids
    ensures |Sort(ids)| == |ids|
  {
    forall id ensures id in Sort(ids) <==> id in ids {
      assert id in Sort(ids) <==> id in multiset(Sort(ids));
      assert id in ids <==> id in multiset(ids);
    }
    assert |multiset(Sort(ids))| == |Sort(ids)| && |multiset(ids)| == |ids|;
  }

  ghost predicate OtherwiseUnchanged(r: Request, r': Request) {
    && r'.path == r.path && r'.verb == r.verb && r'.workspace == r.workspace && r'.pathParams == r.pathParams && r'.loader == r.loader && r'.loads == r.loads
    && (r'.body.Some? <==> r.body.Some?) && (HasObjectBody(r') <==> HasObjectBody(r))
    && (forall k :: k != "experiment_ids" && k != "experimentIds" ==> (BodyHas(r', k) <==> BodyHas(r, k)))
    && (forall k :: k != "experiment_ids" && k != "experimentIds" && BodyHas(r, k) ==> BodyField(r', k) == BodyField(r, k))
    && (forall k :: k != "experiment_ids" ==> (k in r'.query <==> k in r.query) && (k in r.query ==> r'.query[k] == r.query[k]))
  }

  /** Every source that named ids, and the one the handler reads, now carries these ids under one spelling. */
  ghost predicate Carries(r: Request, r': Request, ids: seq<string>) {
    && HandlerIds(r') == Some(TextList(ids))
    && (BodyHas(r, "experiment_ids") || BodyHas(r, "experimentIds")
        ==> BodyHas(r', "experiment_ids") && BodyField(r', "experiment_ids") == TextList(ids))
    && !BodyHas(r', "experimentIds")
    && ("experiment_ids" in r.query ==> "experiment_ids" in r'.query && r'.query["experiment_ids"] == TextList(ids))
  }

  lemma RewriteCarries(r: Request, ids: seq<string>)
    requires r.verb == "POST" ==> HasObjectBody(r)
    ensures Carries(r, Rewrite(r, ids), ids)
  {
  }

  lemma RewriteKeepsTheRest(r: Request, ids: seq<string>)
    ensures OtherwiseUnchanged(r, Rewrite(r, ids))
  {
  }

  /**
   * When the narrowing applies without broad access, the source the handler reads carries, in order, exactly
   * the allowed ids that every source asking for ids asked for, and at least one; every source that named ids
   * now carries the same list, under one spelling; everything else in the request is as it was.
   */
  lemma NarrowingIsExact(r: Request, scope: Scope, allowed: Result<seq<string>, ()>)
    ensures NarrowToScope(r, scope, allowed).1 && !scope.broad ==>
              && allowed.Ok?
              && OtherwiseUnchanged(r, NarrowToScope(r, scope, allowed).0)
              && exists ids :: Narrowed(r, NarrowToScope(r, scope, allowed).0, allowed.value, ids)
  {
    if NarrowToScope(r, scope, allowed).1 && !scope.broad {
      SelectedIff(r, allowed.value, "");
      RewriteNarrows(r, allowed.value);
      RewriteKeepsTheRest(r, Sort(Selected(r, allowed.value)));
    }
  }

  lemma RewriteNarrows(r: Request, allowed: seq<string>)
    requires Selected(r, allowed) != [] && (r.verb == "POST" ==> HasObjectBody(r)) && SourcesLegible(r)
    ensures Narrowed(r, Rewrite(r, Sort(Selected(r, allowed))), allowed, Sort(Selected(r, allowed)))
  {
    SortIsOrdered(Selected(r, allowed));
    SortKeepsMembers(Selected(r, allowed));
    forall id ensures id in Selected(r, allowed) <==> Wanted(r, allowed, id) {
      SelectedIff(r, allowed, id);
    }
    RewriteCarries(r, Sort(Selected(r, allowed)));
  }

  /** The rewritten request carries these ids: in order, at least one, and exactly the wanted ones. */
  ghost predicate Narrowed(r: Request, r': Request, allowed: seq<string>, ids: seq<string>) {
    Carries(r, r', ids) && ids != [] && Ordered(ids) && forall id :: id in ids <==> Wanted(r, allowed, id)
  }

  /** It applies exactly when access is broad, or some wanted id exists, every source can be read, and a POST has an object body. */
  lemma NarrowingAppliesIff(r: Request, scope: Scope, allowed: Result<seq<string>, ()>)
    ensures NarrowToScope(r, scope, allowed).1 <==>
      || scope.broad
      || (scope.names != [] && allowed.Ok? && (exists id :: Wanted(r, allowed.value, id))
          && SourcesLegible(r) && (r.verb == "POST" ==> HasObjectBody(r)))
    ensures !NarrowToScope(r, scope, allowed).1 ==> NarrowToScope(r, scope, allowed).0 == r
  {
    if allowed.Ok? {
      var selected := Selected(r, allowed.value);
      forall id ensures SourcesLegible(r) ==> (id in selected <==> Wanted(r, allowed.value, id)) {
        SelectedIff(r, allowed.value, id);
      }
      SelectedIff(r, allowed.value, "");
      assert selected != [] ==> selected[0] in selected;
    }
  }

  lemma TextListIsUsable(ids: seq<string>, allowScalar: bool)
    requires ids != [] && forall id :: id in ids ==> id != ""
    ensures RequestIds(TextList(ids), allowScalar) == Some(ids)
  {
    var v := TextList(ids);
    forall i | i in v.items ensures i.Text? && i.s != "" {
      var j :| 0 <= j < |ids| && v.items[j] == i;
      assert ids[j] in ids;
    }
    assert Texts(v.items) == ids;
  }

  lemma {:induction false} DistinctSameMembers(a: seq<string>, b: seq<string>)
    requires forall i, j :: 0 <= i < j < |a| ==> a[i] != a[j]
    requires forall i, j :: 0 <= i < j < |b| ==> b[i] != b[j]
    requires forall x :: x in a <==> x in b
    ensures multiset(a) == multiset(b)
  {
    forall x ensures multiset(a)[x] == multiset(b)[x] {
      DistinctCount(a, x);
      DistinctCount(b, x);
    }
  }

  lemma {:induction false} DistinctCount(a: seq<string>, x: string)
    requires forall i, j :: 0 <= i < j < |a| ==> a[i] != a[j]
    ensures multiset(a)[x] == if x in a then 1 else 0
  {
    if a != [] {
      DistinctCount(a[1..], x);
      assert a == [a[0]] + a[1..];
    }
  }

  /** What the rewritten request asks for is its own list, wherever it asks. */
  lemma RewriteAsks(r: Request, ids: seq<string>)
    requires ids != [] && (forall id :: id in ids ==> id != "") && (r.verb == "POST" ==> HasObjectBody(r))
    ensures var r' := Rewrite(r, ids);
            && (AskedInBody(r', "experiment_ids") == Ids(ids) || AskedInBody(r', "experiment_ids") == Silent)
            && AskedInBody(r', "experimentIds") == Silent
            && (AskedInQuery(r') == Ids(ids) || AskedInQuery(r') == Silent)
            && (AskedInBody(r', "experiment_ids") == Ids(ids) || AskedInQuery(r') == Ids(ids))
  {
    TextListIsUsable(ids, false);
    TextListIsUsable(ids, true);
    RewriteCarries(r, ids);
  }

  lemma RewriteAgain(r: Request, ids: seq<string>)
    ensures Rewrite(Rewrite(r, ids), ids) == Rewrite(r, ids)
  {
    var r' := Rewrite(r, ids);
    if HasObjectBody(r) {
      var fields := r'.body.value.fields;
      if "experiment_ids" in fields && fields["experiment_ids"] == TextList(ids) && "experimentIds" !in fields {
        assert (fields - {"experiment_ids", "experimentIds"})["experiment_ids" := TextList(ids)] == fields;
      }
    }
    if "experiment_ids" in r'.query && r'.query["experiment_ids"] == TextList(ids) {
      assert r'.query["experiment_ids" := TextList(ids)] == r'.query;
    }
  }

  lemma SelectedAfterRewrite(r: Request, allowed: seq<string>, ids: seq<string>)
    requires ids != [] && (forall id :: id in ids ==> id != "" && id in allowed) && (r.verb == "POST" ==> HasObjectBody(r))
    ensures forall id :: id in Selected(Rewrite(r, ids), allowed) <==> id in ids
  {
    RewriteAsks(r, ids);
  }

  lemma SelectAgain(r: Request, allowed: seq<string>, ids: seq<string>)
    requires (forall id :: id in allowed ==> id != "") && forall i, j :: 0 <= i < j < |allowed| ==> allowed[i] != allowed[j]
    requires ids == Sort(Selected(r, allowed)) && Selected(r, allowed) != [] && (r.verb == "POST" ==> HasObjectBody(r))
    ensures ids != [] && forall id :: id in ids ==> id != ""
    ensures Selected(Rewrite(r, ids), allowed) != [] && Sort(Selected(Rewrite(r, ids), allowed)) == ids
  {
    var first, second := Selected(r, allowed), Selected(Rewrite(r, ids), allowed);
    SortKeepsMembers(first);
    SelectedAfterRewrite(r, allowed, ids);
    DistinctSameMembers(first, second);
    SortDependsOnElements(first, second);
    assert first[0] in second;
  }

  /** Narrowing a narrowed request again applies and changes nothing. */
  lemma NarrowingIsIdempotent(r: Request, scope: Scope, allowed: Result<seq<string>, ()>)
    requires NarrowToScope(r, scope, allowed).1
    requires allowed.Ok? ==> (forall id :: id in allowed.value ==> id != "")
                             && forall i, j :: 0 <= i < j < |allowed.value| ==> allowed.value[i] != allowed.value[j]
    ensures NarrowToScope(NarrowToScope(r, scope, allowed).0, scope, allowed) == NarrowToScope(r, scope, allowed)
  {
    if !scope.broad {
      var ids := Sort(Selected(r, allowed.value));
      SelectAgain(r, allowed.value, ids);
      RewriteAsks(r, ids);
      RewriteAgain(r, ids);
      RewriteKeepsTheRest(r, ids);
    }
  }
}
