/**
 * The ids a handler reads from a request that an id filter has let through: from the query alone for a GET
 * that has one, otherwise from the body, decoded once more if it is a string, in either spelling. The filters
 * look at one spelling in an object body that has been read, and at the query; exactly when that is enough for
 * what the handler reads to stay within what the caller may read, is stated and proved here for both of them.
 */
module ReadIds {
  import opened Wrappers
  import opened Json
  import opened Requests
  import opened GetBody
  import opened IdFilters

  // ----- Readings -----

  predicate ReadableText(v: Value, canRead: string -> bool) {
    NormalizeText(v).Some? && canRead(NormalizeText(v).value)
  }

  /** The id, or every id of a list, may be read. */
  predicate OnlyNames(v: Value, canRead: string -> bool) {
    match v
    case List(items) => forall i :: i in items ==> ReadableText(i, canRead)
    case _ => ReadableText(v, canRead)
  }

  /** The handler refuses, or reads some id, and only ids that may be read. */
  predicate WithinReadable(reading: Reading, canRead: string -> bool) {
    match reading
    case Absent => false
    case Refused => true
    case Is(v) => v != List([]) && OnlyNames(v, canRead)
  }

  /**
   * What the handler reads is refused, or names some id and none that may not be read; and no more does the
   * query, which the handler of another method than GET does not read.
   */
  predicate Covered(r: Request, f: Field, codec: Codec, canRead: string -> bool) {
    && WithinReadable(HandlerReads(Whole(r), f, codec), canRead)
    && (r.verb != "GET" ==> forall id :: id in NamedInQuery(r, f.name) ==> canRead(id))
  }

  // ----- What the filters miss -----

  /** The filter does not see the field in the body, and the handler reads no id there, or one that may not be read. */
  predicate HiddenInBody(r: Request, f: Field, codec: Codec, canRead: string -> bool) {
    !BodyHas(r, f.name) && !WithinReadable(HandlerReads(Whole(r), f, codec), canRead)
  }

  /** The body names no id that may be read, and the filter leaves the handler an empty list. */
  predicate EmptiesBody(r: Request, f: Field, canRead: string -> bool) {
    BodyHas(r, f.name) && BodyIds(r, f.name, canRead) == [] && !BothSpellings(f, r.body.value.fields)
  }

  /**
   * Of a GET with a query, the body was enough for the filter, and the query loses the field but not all; of
   * another request, the query was enough, and the handler finds what the filter did not see, or nothing.
   */
  predicate ListLeaks(r: Request, f: Field, codec: Codec, canRead: string -> bool) {
    if r.verb == "GET" && r.query != map[] then QueryIds(r, f.name, canRead) == [] && r.query - {f.name} != map[]
    else HiddenInBody(r, f, codec, canRead) || EmptiesBody(r, f, canRead)
  }

  /** Of a GET with a query, the body was enough for the filter, or the first of several values is no readable id. */
  predicate SingleLeaks(r: Request, f: Field, codec: Codec, canRead: string -> bool) {
    if r.verb == "GET" && r.query != map[] then
      f.name !in r.query || (r.query[f.name].List? && !WithinReadable(Converted(f, QueryValue(f, r.query[f.name]), codec), canRead))
    else HiddenInBody(r, f, codec, canRead)
  }

  // ----- Lists -----

  /** A repeated string field, which takes a list of strings as it is. */
  ghost predicate TakesLists(codec: Codec, f: Field) {
    f.repeated && f.name != f.jsonName && forall ids :: codec.convert(f, TextList(ids)) == Some(TextList(ids))
  }

  lemma ReadableListIsNamed(ids: seq<string>, canRead: string -> bool)
    ensures OnlyNames(TextList(Readable(ids, canRead)), canRead)
    ensures Readable(ids, canRead) != [] ==> TextList(Readable(ids, canRead)) != List([])
  {
    ReadableIsClean(ids, canRead);
    var v := TextList(Readable(ids, canRead));
    forall i | i in v.items ensures ReadableText(i, canRead) {
      var j :| 0 <= j < |v.items| && v.items[j] == i;
      assert i == Text(Readable(ids, canRead)[j]);
    }
  }

  lemma ReadFromQuery(r: Request, f: Field, codec: Codec, ids: seq<string>)
    requires TakesLists(codec, f) && r.verb == "GET" && f.name in r.query && r.query[f.name] == TextList(ids)
    ensures HandlerReads(Whole(r), f, codec) == Is(TextList(ids))
  {
  }

  lemma ReadFromBody(r: Request, f: Field, codec: Codec, ids: seq<string>)
    requires TakesLists(codec, f) && (r.verb == "GET" ==> r.query == map[]) && BodyHas(r, f.name) && BodyField(r, f.name) == TextList(ids)
    ensures HandlerReads(Whole(r), f, codec) == if BothSpellings(f, r.body.value.fields) then Refused else Is(TextList(ids))
  {
  }

  /** The filter on a GET with a query, where the handler reads the query. */
  lemma FilteredGet(r: Request, f: Field, codec: Codec, canRead: string -> bool)
    requires TakesLists(codec, f) && FilterIds(r, f.name, canRead).1 && r.verb == "GET" && r.query != map[]
    ensures Covered(FilterIds(r, f.name, canRead).0, f, codec, canRead) <==> !ListLeaks(r, f, codec, canRead)
  {
    var r' := FilterIds(r, f.name, canRead).0;
    if QueryIds(r, f.name, canRead) != [] {
      ReadFromQuery(r', f, codec, QueryIds(r, f.name, canRead));
      ReadableListIsNamed(NamedInQuery(r, f.name), canRead);
    } else if r'.query == map[] {
      ReadFromBody(r', f, codec, BodyIds(r, f.name, canRead));
      ReadableListIsNamed(NamedInBody(r, f.name), canRead);
    }
  }

  lemma FilteredSources(r: Request, f: Field, canRead: string -> bool)
    requires FilterIds(r, f.name, canRead).1
    ensures var r' := FilterIds(r, f.name, canRead).0;
            && r'.verb == r.verb && (r.query == map[] ==> r'.query == map[])
            && NamedInQuery(r', f.name) == QueryIds(r, f.name, canRead)
            && (QueryIds(r, f.name, canRead) != [] || BodyIds(r, f.name, canRead) != [])
            && (forall id :: id in QueryIds(r, f.name, canRead) ==> canRead(id))
            && (BodyHas(r, f.name) ==> BodyHas(r', f.name) && BodyField(r', f.name) == TextList(BodyIds(r, f.name, canRead))
                                       && (BothSpellings(f, r'.body.value.fields) <==> BothSpellings(f, r.body.value.fields)))
            && (!BodyHas(r, f.name) ==> r'.body == r.body && r'.loader == r.loader && QueryIds(r, f.name, canRead) != [])
  {
    FilterIsExact(r, f.name, canRead);
  }

  lemma SeenInBody(r: Request, f: Field, codec: Codec, canRead: string -> bool, ids: seq<string>)
    requires TakesLists(codec, f) && (r.verb == "GET" ==> r.query == map[])
    requires BodyHas(r, f.name) && BodyField(r, f.name) == TextList(Readable(ids, canRead))
    requires forall id :: id in NamedInQuery(r, f.name) ==> canRead(id)
    ensures Covered(r, f, codec, canRead) <==> Readable(ids, canRead) != [] || BothSpellings(f, r.body.value.fields)
  {
    ReadFromBody(r, f, codec, Readable(ids, canRead));
    ReadableListIsNamed(ids, canRead);
    assert Readable(ids, canRead) == [] ==> TextList(Readable(ids, canRead)) == List([]);
  }

  lemma UnseenInBody(r: Request, f: Field, codec: Codec, canRead: string -> bool)
    requires r.verb != "GET" && forall id :: id in NamedInQuery(r, f.name) ==> canRead(id)
    ensures Covered(r, f, codec, canRead) <==> WithinReadable(HandlerReads(Whole(r), f, codec), canRead)
  {
  }

  lemma SameBodySameReading(r: Request, r': Request, f: Field, codec: Codec)
    requires r.verb == r'.verb != "GET" && r'.body == r.body && r'.loader == r.loader
    ensures HandlerReads(Whole(r'), f, codec) == HandlerReads(Whole(r), f, codec)
  {
  }

  /** The filter on any other request, where the handler reads the body. */
  lemma FilteredBody(r: Request, f: Field, codec: Codec, canRead: string -> bool)
    requires TakesLists(codec, f) && FilterIds(r, f.name, canRead).1 && !(r.verb == "GET" && r.query != map[])
    ensures Covered(FilterIds(r, f.name, canRead).0, f, codec, canRead) <==> !ListLeaks(r, f, codec, canRead)
  {
    var r' := FilterIds(r, f.name, canRead).0;
    FilteredSources(r, f, canRead);
    if BodyHas(r, f.name) {
      SeenInBody(r', f, codec, canRead, NamedInBody(r, f.name));
    } else {
      SameBodySameReading(r, r', f, codec);
      UnseenInBody(r', f, codec, canRead);
    }
  }

  /** What goes on from an id-list filter is covered exactly unless the filter leaks. */
  lemma FilteredListIsCoveredIff(r: Request, f: Field, codec: Codec, canRead: string -> bool)
    requires TakesLists(codec, f) && FilterIds(r, f.name, canRead).1
    ensures Covered(FilterIds(r, f.name, canRead).0, f, codec, canRead) <==> !ListLeaks(r, f, codec, canRead)
  {
    if r.verb == "GET" && r.query != map[] {
      FilteredGet(r, f, codec, canRead);
    } else {
      FilteredBody(r, f, codec, canRead);
    }
  }

  // ----- A single id -----

  /** A string field: a string converts to itself, a list does not convert, and what does is a string. */
  ghost predicate TakesText(codec: Codec, f: Field) {
    && !f.repeated && f.name != f.jsonName
    && (forall s :: codec.convert(f, Text(s)) == Some(Text(s))) && (forall items :: codec.convert(f, List(items)).None?)
    && (forall v :: codec.convert(f, v).Some? ==> codec.convert(f, v).value.Text?)
  }

  lemma SingleIsReadable(v: Value, canRead: string -> bool)
    requires SingleReadable(v, canRead)
    ensures v.Text? ==> ReadableText(v, canRead)
    ensures v.Text? || (v.List? && v.items != [])
    ensures NormalizeValues(v) != [] && forall id :: id in NormalizeValues(v) ==> canRead(id)
  {
  }

  lemma SingleGet(r: Request, f: Field, codec: Codec, canRead: string -> bool)
    requires TakesText(codec, f) && FilterSingleId(r, f.name, canRead).1 && r.verb == "GET" && r.query != map[]
    ensures Covered(r, f, codec, canRead) <==> !SingleLeaks(r, f, codec, canRead)
  {
    if f.name in r.query {
      SingleIsReadable(r.query[f.name], canRead);
      var reading := Converted(f, QueryValue(f, r.query[f.name]), codec);
      assert HandlerReads(Whole(r), f, codec) == reading;
    }
  }

  lemma SingleBody(r: Request, f: Field, codec: Codec, canRead: string -> bool)
    requires TakesText(codec, f) && FilterSingleId(r, f.name, canRead).1 && !(r.verb == "GET" && r.query != map[])
    ensures Covered(r, f, codec, canRead) <==> !SingleLeaks(r, f, codec, canRead)
  {
    if f.name in r.query {
      SingleIsReadable(r.query[f.name], canRead);
    }
    if BodyHas(r, f.name) {
      SingleIsReadable(BodyField(r, f.name), canRead);
      assert Whole(r) == r;
    }
  }

  /** What goes on from the single-id filter is covered exactly unless the filter leaks. */
  lemma FilteredSingleIsCoveredIff(r: Request, f: Field, codec: Codec, canRead: string -> bool)
    requires TakesText(codec, f) && FilterSingleId(r, f.name, canRead).1
    ensures Covered(FilterSingleId(r, f.name, canRead).0, f, codec, canRead) <==> !SingleLeaks(r, f, codec, canRead)
  {
    if r.verb == "GET" && r.query != map[] {
      SingleGet(r, f, codec, canRead);
    } else {
      SingleBody(r, f, codec, canRead);
    }
  }
}
