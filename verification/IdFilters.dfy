/**
 * Filters that check each id a request carries (`_filter_request_experiment_ids`, `_filter_request_run_ids`,
 * `_filter_request_single_experiment_id`). `canRead` says of a normalised id whether it resolves to a
 * resource the caller may read.
 */
module IdFilters {
  import opened Wrappers
  import opened Strings
  import opened Json
  import opened Requests
  import opened Narrowing

  function Readable(ids: seq<string>, canRead: string -> bool): (r: seq<string>)
    ensures forall id :: id in r <==> exists x :: x in ids && Strip(x) == id && id != "" && canRead(id)
  {
    if ids == [] then []
    else
      var front := Readable(ids[..|ids| - 1], canRead);
      var id := Strip(ids[|ids| - 1]);
      if id != "" && canRead(id) then front + [id] else front
  }

  /** `filter_readable_experiment_ids` and `filter_readable_run_ids`. */
  method FilterReadable(ids: seq<string>, canRead: string -> bool) returns (readable: seq<string>)
    ensures readable == Readable(ids, canRead)
  {
    readable := [];
    for i := 0 to |ids|
      invariant readable == Readable(ids[..i], canRead)
    {
      assert ids[..i + 1][..i] == ids[..i];
      var id := Strip(ids[i]);
      if id == "" {
        continue;
      }
      if canRead(id) {
        readable := readable + [id];
      }
    }
    assert ids[..|ids|] == ids;
  }

  /** The ids a source's value reads as. */
  function NamedInBody(r: Request, key: string): seq<string> {
    if BodyHas(r, key) then NormalizeValues(BodyField(r, key)) else []
  }

  function NamedInQuery(r: Request, key: string): seq<string> {
    if key in r.query then NormalizeValues(r.query[key]) else []
  }

  /** The readable ids each source names. */
  function BodyIds(r: Request, key: string, canRead: string -> bool): seq<string> {
    Readable(NamedInBody(r, key), canRead)
  }

  function QueryIds(r: Request, key: string, canRead: string -> bool): seq<string> {
    Readable(NamedInQuery(r, key), canRead)
  }

  function WithIds(r: Request, key: string, bodyIds: seq<string>, queryIds: seq<string>): Request {
    var withBody := if BodyHas(r, key) then r.(body := Some(Object(r.body.value.fields[key := TextList(bodyIds)]))) else r;
    if key in r.query then
      withBody.(query := if queryIds != [] then r.query[key := TextList(queryIds)] else r.query - {key})
    else withBody
  }

  /** The experiment-id and run-id list filters. */
  function FilterIds(r: Request, key: string, canRead: string -> bool): Outcome {
    var bodyIds, queryIds := BodyIds(r, key, canRead), QueryIds(r, key, canRead);
    if bodyIds == [] && queryIds == [] then (r, false) else (WithIds(r, key, bodyIds, queryIds), true)
  }

  /** The single-id filter: every source that names an id must name one readable id. */
  function SingleId(v: Value): Option<string> {
    var ids := NormalizeValues(v);
    if ids != [] && forall id :: id in ids ==> id == ids[0] then Some(ids[0]) else None
  }

  predicate SingleReadable(v: Value, canRead: string -> bool) {
    SingleId(v).Some? && canRead(SingleId(v).value)
  }

  function FilterSingleId(r: Request, key: string, canRead: string -> bool): Outcome {
    var named := BodyHas(r, key) || key in r.query;
    (r, named && (BodyHas(r, key) ==> SingleReadable(BodyField(r, key), canRead)) && (key in r.query ==> SingleReadable(r.query[key], canRead)))
  }

  // ----- What they guarantee -----

  lemma {:induction false} ReadableIsClean(ids: seq<string>, canRead: string -> bool)
    ensures forall i :: 0 <= i < |Readable(ids, canRead)| ==> Clean(Readable(ids, canRead)[i]) && canRead(Readable(ids, canRead)[i])
  {
    if ids != [] {
      ReadableIsClean(ids[..|ids| - 1], canRead);
      StripIsIdempotent(ids[|ids| - 1]);
    }
  }

  lemma ReadableOneMore(front: seq<string>, id: string, canRead: string -> bool)
    requires Clean(id) && canRead(id)
    ensures Readable(front + [id], canRead) == Readable(front, canRead) + [id]
  {
    assert (front + [id])[..|front|] == front;
  }

  lemma {:induction false} ReadableAgain(ids: seq<string>, canRead: string -> bool)
    requires forall i :: 0 <= i < |ids| ==> Clean(ids[i]) && canRead(ids[i])
    ensures Readable(ids, canRead) == ids
  {
    if ids != [] {
      var front, last := ids[..|ids| - 1], ids[|ids| - 1];
      assert front + [last] == ids;
      ReadableAgain(front, canRead);
      ReadableOneMore(front, last, canRead);
    }
  }

  lemma ReadableReadsBack(ids: seq<string>, canRead: string -> bool)
    ensures NormalizeValues(TextList(Readable(ids, canRead))) == Readable(ids, canRead)
  {
    ReadableIsClean(ids, canRead);
    TextListReadsBack(Readable(ids, canRead));
  }

  /** What each source names after the rewrite. */
  lemma WithIdsNames(r: Request, key: string, bodyIds: seq<string>, queryIds: seq<string>)
    requires NormalizeValues(TextList(bodyIds)) == bodyIds && NormalizeValues(TextList(queryIds)) == queryIds
    requires (!BodyHas(r, key) ==> bodyIds == []) && (key !in r.query ==> queryIds == [])
    ensures var r' := WithIds(r, key, bodyIds, queryIds);
            && NamedInBody(r', key) == bodyIds && NamedInQuery(r', key) == queryIds
            && (BodyHas(r', key) <==> BodyHas(r, key)) && (key in r'.query <==> key in r.query && queryIds != [])
  {
  }

  /**
   * The filter applies exactly if some id the request names is readable. Then every source that names ids
   * names exactly its readable ones, in their order, except that a query left with none loses the field.
   */
  lemma FilterIsExact(r: Request, key: string, canRead: string -> bool)
    ensures var (r', applied) := FilterIds(r, key, canRead);
            && (applied <==> exists id :: id in BodyIds(r, key, canRead) || id in QueryIds(r, key, canRead))
            && (!applied ==> r' == r)
            && (applied ==>
                  && NamedInBody(r', key) == Readable(NamedInBody(r, key), canRead)
                  && NamedInQuery(r', key) == Readable(NamedInQuery(r, key), canRead)
                  && (BodyHas(r', key) <==> BodyHas(r, key))
                  && (key in r'.query <==> key in r.query && Readable(NamedInQuery(r, key), canRead) != []))
  {
    var bodyIds, queryIds := BodyIds(r, key, canRead), QueryIds(r, key, canRead);
    ReadableReadsBack(NamedInBody(r, key), canRead);
    ReadableReadsBack(NamedInQuery(r, key), canRead);
    WithIdsNames(r, key, bodyIds, queryIds);
    assert bodyIds != [] ==> bodyIds[0] in bodyIds;
    assert queryIds != [] ==> queryIds[0] in queryIds;
  }

  /** The request names the id in its body or its query. */
  ghost predicate NamesId(r: Request, key: string, id: string) {
    (BodyHas(r, key) && SaysAmong(r.body.value.fields[key], id)) || (key in r.query && SaysAmong(r.query[key], id))
  }

  lemma {:induction false} ReadableIsNamed(v: Value, canRead: string -> bool, id: string)
    ensures id in Readable(NormalizeValues(v), canRead) <==> SaysAmong(v, id) && canRead(id)
  {
    NormalizedValuesIff(v, id);
    forall x | x in NormalizeValues(v) ensures x != "" && Strip(x) == x {
      NormalizedValuesIff(v, x);
      SaidIsClean(v, x);
    }
  }

  lemma SaidIsClean(v: Value, x: string)
    requires SaysAmong(v, x)
    ensures x != "" && Strip(x) == x
  {
    assert "" + x + "" == x;
    StripTrims(x, x);
  }

  /** The list filters apply exactly when the request names some readable id. */
  lemma FilterAppliesIff(r: Request, key: string, canRead: string -> bool)
    ensures FilterIds(r, key, canRead).1 <==> exists id :: NamesId(r, key, id) && canRead(id)
  {
    FilterIsExact(r, key, canRead);
    forall id ensures id in BodyIds(r, key, canRead) || id in QueryIds(r, key, canRead) <==> NamesId(r, key, id) && canRead(id) {
      if BodyHas(r, key) {
        ReadableIsNamed(r.body.value.fields[key], canRead, id);
      }
      if key in r.query {
        ReadableIsNamed(r.query[key], canRead, id);
      }
    }
  }

  /** Nothing but the field has changed. */
  ghost predicate OnlyField(r: Request, r': Request, key: string) {
    && r' == r.(body := r'.body, query := r'.query)
    && (forall k :: k != key ==> (k in r'.query <==> k in r.query) && (k in r.query ==> r'.query[k] == r.query[k]))
    && (if BodyHas(r, key) then HasObjectBody(r') && forall k :: k != key ==> (BodyHas(r', k) <==> BodyHas(r, k)) && (BodyHas(r, k) ==> BodyField(r', k) == BodyField(r, k))
        else r'.body == r.body)
    && (key !in r.query ==> r'.query == r.query)
  }

  lemma WithIdsKeepsTheRest(r: Request, key: string, bodyIds: seq<string>, queryIds: seq<string>)
    ensures OnlyField(r, WithIds(r, key, bodyIds, queryIds), key)
  {
  }

  lemma FilterKeepsTheRest(r: Request, key: string, canRead: string -> bool)
    ensures OnlyField(r, FilterIds(r, key, canRead).0, key)
  {
    WithIdsKeepsTheRest(r, key, BodyIds(r, key, canRead), QueryIds(r, key, canRead));
  }

  lemma WithIdsAgain(r: Request, key: string, bodyIds: seq<string>, queryIds: seq<string>)
    ensures WithIds(WithIds(r, key, bodyIds, queryIds), key, bodyIds, queryIds) == WithIds(r, key, bodyIds, queryIds)
  {
    var r' := WithIds(r, key, bodyIds, queryIds);
    if BodyHas(r, key) {
      assert r'.body.value.fields[key := TextList(bodyIds)] == r'.body.value.fields;
    }
    if key in r'.query {
      assert r'.query[key := TextList(queryIds)] == r'.query;
    }
  }

  lemma FilteredSourcesAreStable(r: Request, key: string, canRead: string -> bool)
    requires FilterIds(r, key, canRead).1
    ensures BodyIds(FilterIds(r, key, canRead).0, key, canRead) == BodyIds(r, key, canRead)
    ensures QueryIds(FilterIds(r, key, canRead).0, key, canRead) == QueryIds(r, key, canRead)
  {
    FilterIsExact(r, key, canRead);
    ReadableTwice(NamedInBody(r, key), canRead);
    ReadableTwice(NamedInQuery(r, key), canRead);
  }

  /** Filtering a filtered request changes nothing, and applies again if it did before. */
  lemma FilterIsIdempotent(r: Request, key: string, canRead: string -> bool)
    ensures FilterIds(FilterIds(r, key, canRead).0, key, canRead) == FilterIds(r, key, canRead)
  {
    if FilterIds(r, key, canRead).1 {
      FilteredSourcesAreStable(r, key, canRead);
      WithIdsAgain(r, key, BodyIds(r, key, canRead), QueryIds(r, key, canRead));
    }
  }

  lemma ReadableTwice(ids: seq<string>, canRead: string -> bool)
    ensures Readable(Readable(ids, canRead), canRead) == Readable(ids, canRead)
  {
    ReadableIsClean(ids, canRead);
    ReadableAgain(Readable(ids, canRead), canRead);
  }

  /** A source names one id, and it may be read: it has usable strings, all this one. */
  ghost predicate NamesOne(v: Value, canRead: string -> bool) {
    exists id :: canRead(id) && SaysAmong(v, id) && forall other :: SaysAmong(v, other) ==> other == id
  }

  /** The single-id filter applies exactly if some source gives the key, and every one that does names one readable id. */
  lemma SingleFilterIsExact(r: Request, key: string, canRead: string -> bool)
    ensures FilterSingleId(r, key, canRead).0 == r
    ensures FilterSingleId(r, key, canRead).1 <==>
      && (BodyHas(r, key) || key in r.query)
      && (BodyHas(r, key) ==> NamesOne(r.body.value.fields[key], canRead))
      && (key in r.query ==> NamesOne(r.query[key], canRead))
  {
    forall v ensures SingleReadable(v, canRead) <==> NamesOne(v, canRead) {
      OneIsSingle(v, canRead);
    }
  }

  lemma OneIsSingle(v: Value, canRead: string -> bool)
    ensures SingleReadable(v, canRead) <==> NamesOne(v, canRead)
  {
    var ids := NormalizeValues(v);
    forall id ensures id in ids <==> SaysAmong(v, id) {
      NormalizedValuesIff(v, id);
    }
    if SingleReadable(v, canRead) || NamesOne(v, canRead) {
      assert ids[0] in ids;
    }
  }

  // ----- More grants never hurt -----

  ghost predicate Implies(weaker: string -> bool, stronger: string -> bool) {
    forall id :: weaker(id) ==> stronger(id)
  }

  lemma MoreReadable(ids: seq<string>, weaker: string -> bool, stronger: string -> bool)
    requires Implies(weaker, stronger)
    ensures forall id :: id in Readable(ids, weaker) ==> id in Readable(ids, stronger)
  {
  }

  /** A larger readable set keeps the filter applying and leaves at least the same ids in each source. */
  lemma FilterIsMonotone(r: Request, key: string, weaker: string -> bool, stronger: string -> bool)
    requires Implies(weaker, stronger)
    ensures FilterIds(r, key, weaker).1 ==> FilterIds(r, key, stronger).1
    ensures forall id :: id in BodyIds(r, key, weaker) ==> id in BodyIds(r, key, stronger)
    ensures forall id :: id in QueryIds(r, key, weaker) ==> id in QueryIds(r, key, stronger)
  {
    MoreReadable(NamedInBody(r, key), weaker, stronger);
    MoreReadable(NamedInQuery(r, key), weaker, stronger);
    FilterIsExact(r, key, weaker);
    FilterIsExact(r, key, stronger);
  }

  /** A larger scope, with its names resolved to at least the same ids, keeps the narrowing applying and selects at least the same ids. */
  lemma NarrowingIsMonotone(r: Request, small: Scope, smallIds: Result<seq<string>, ()>, large: Scope, largeIds: Result<seq<string>, ()>)
    requires small.broad ==> large.broad
    requires !large.broad ==> (small.names != [] ==> large.names != [])
    requires smallIds.Ok? ==> largeIds.Ok? && forall id :: id in smallIds.value ==> id in largeIds.value
    ensures NarrowToScope(r, small, smallIds).1 ==> NarrowToScope(r, large, largeIds).1
    ensures NarrowToScope(r, small, smallIds).1 && !small.broad && !large.broad ==>
              forall id :: id in Selected(r, smallIds.value) ==> id in Selected(r, largeIds.value)
  {
    NarrowingAppliesIff(r, small, smallIds);
    NarrowingAppliesIff(r, large, largeIds);
    if smallIds.Ok? {
      forall id | Wanted(r, smallIds.value, id) ensures Wanted(r, largeIds.value, id) { }
    }
  }
}
