/**
 * Moving the body of a GET collection request to its query (`normalize_collection_request`), so that the
 * scope can be added there. A message is given by its field table; decoding text and converting field values
 * are the protobuf library's, and are parameters.
 */
module GetBody {
  import opened Wrappers
  import opened Json
  import opened Requests

  datatype Field = Field(name: string, jsonName: string, repeated: bool)

  type Body = map<string, Value>

  /** `decode` parses JSON text; `convert` is the message's value for a field, or a parse error. */
  datatype Codec = Codec(decode: string -> Option<Value>, convert: (Field, Value) -> Option<Value>)

  // ----- The rewrite -----

  predicate BothSpellings(f: Field, body: Body) {
    f.name != f.jsonName && f.name in body && f.jsonName in body
  }

  predicate Present(f: Field, body: Body) {
    f.name in body || f.jsonName in body
  }

  /** What the body gives for a field. */
  function Given(f: Field, body: Body): Value
    requires Present(f, body)
  {
    if f.name in body then body[f.name] else body[f.jsonName]
  }

  /** `parse_dict`: every field that is present converts; unknown fields are ignored. */
  predicate Parses(fields: seq<Field>, body: Body, codec: Codec) {
    forall f :: f in fields && Present(f, body) ==> codec.convert(f, Given(f, body)).Some?
  }

  predicate Usable(fields: seq<Field>, body: Body, codec: Codec) {
    (forall f :: f in fields ==> !BothSpellings(f, body)) && Parses(fields, body, codec)
  }

  function QueryOf(fields: seq<Field>, body: Body, codec: Codec): Body
    requires Parses(fields, body, codec)
  {
    if fields == [] then map[]
    else
      var front, f := fields[..|fields| - 1], fields[|fields| - 1];
      if Present(f, body) then QueryOf(front, body, codec)[f.name := codec.convert(f, Given(f, body)).value]
      else QueryOf(front, body, codec)
  }

  /** The one extra decode of a body that is a JSON string; none if it is no object. */
  function Decoded(r: Request, codec: Codec): Option<Request> {
    if r.body.Some? && r.body.value.Text? then
      var v := codec.decode(r.body.value.s);
      if v == Some(Null) then Some(r.(body := Some(Object(map[]))))
      else if v.Some? && v.value.Object? then Some(r.(body := v))
      else None
    else Some(r)
  }

  function Normalized(r: Request, fields: seq<Field>, codec: Codec): (Request, bool) {
    var d := Decoded(r, codec);
    if d.None? then (r, false)
    else if r.verb != "GET" || r.query != map[] || !HasObjectBody(d.value) then (d.value, true)
    else if !Usable(fields, d.value.body.value.fields, codec) then (d.value, false)
    else (d.value.(body := None, query := QueryOf(fields, d.value.body.value.fields, codec)), true)
  }

  /** `normalize_collection_request`. */
  method Normalize(r: Request, fields: seq<Field>, codec: Codec) returns (r': Request, ok: bool)
    ensures (r', ok) == Normalized(r, fields, codec)
  {
    var decoded := Decoded(r, codec);
    if decoded.None? {
      return r, false;
    }
    r' := decoded.value;
    if r.verb != "GET" || r.query != map[] || !HasObjectBody(r') {
      return r', true;
    }
    var body := r'.body.value.fields;
    for i := 0 to |fields|
      invariant forall f :: f in fields[..i] ==> !BothSpellings(f, body)
    {
      if BothSpellings(fields[i], body) {
        return r', false;
      }
    }
    if !Parses(fields, body, codec) {
      return r', false;
    }
    var query: Body := map[];
    for i := 0 to |fields|
      invariant Parses(fields[..i], body, codec) && query == QueryOf(fields[..i], body, codec)
    {
      var f := fields[i];
      assert fields[..i + 1][..i] == fields[..i];
      if Present(f, body) {
        query := query[f.name := codec.convert(f, Given(f, body)).value];
      }
    }
    assert fields[..|fields|] == fields;
    r', ok := r'.(body := None, query := query), true;
  }

  // ----- What the handler reads -----

  /** A field of the message a handler builds. */
  datatype Reading = Absent | Refused | Is(value: Value)

  function Converted(f: Field, v: Value, codec: Codec): Reading {
    var c := codec.convert(f, v);
    if c.Some? then Is(c.value) else Refused
  }

  /** The values of a query key: all of them as a list for a repeated field, otherwise the first. */
  function QueryValue(f: Field, v: Value): Value {
    if f.repeated then (if v.List? then v else List([v]))
    else if v.List? && v.items != [] then v.items[0]
    else v
  }

  /** From the query when a GET has one, by field name only; otherwise from the body, in either spelling. */
  function HandlerReads(r: Request, f: Field, codec: Codec): Reading {
    if r.verb == "GET" && r.query != map[] then
      if f.name in r.query then Converted(f, QueryValue(f, r.query[f.name]), codec) else Absent
    else
      var d := Decoded(r, codec);
      if d.None? then Refused
      else if !HasObjectBody(d.value) then Absent
      else BodyReading(f, d.value.body.value.fields, codec)
  }

  /** One spelling is read, either one; both are refused. */
  function BodyReading(f: Field, body: Body, codec: Codec): Reading {
    var plain, other := f.name in body, f.jsonName in body;
    if plain && other && f.name != f.jsonName then Refused
    else if plain then Converted(f, body[f.name], codec)
    else if other then Converted(f, body[f.jsonName], codec)
    else Absent
  }

  /** The one extra decode of a string body, case by case; other bodies stay. */
  lemma DecodedIsExact(r: Request, codec: Codec)
    ensures match r.body
            case Some(Text(s)) =>
              var v := codec.decode(s);
              Decoded(r, codec) == if v.None? then None
                                   else if v.value == Null then Some(r.(body := Some(Object(map[]))))
                                   else if v.value.Object? then Some(r.(body := Some(v.value))) else None
            case _ => Decoded(r, codec) == Some(r)
  {
  }

  /** Distinct field names: a message descriptor's. */
  ghost predicate DistinctNames(fields: seq<Field>) {
    forall i, j :: 0 <= i < j < |fields| ==> fields[i].name != fields[j].name
  }

  /** A value taken from a message converts to itself, and is a list exactly for a repeated field. */
  ghost predicate Stable(codec: Codec) {
    forall f, v :: codec.convert(f, v).Some? ==>
      codec.convert(f, codec.convert(f, v).value) == codec.convert(f, v) && (f.repeated <==> codec.convert(f, v).value.List?)
  }

  lemma {:induction false} QueryHolds(fields: seq<Field>, body: Body, codec: Codec, f: Field)
    requires Parses(fields, body, codec) && DistinctNames(fields) && f in fields
    ensures f.name in QueryOf(fields, body, codec) <==> Present(f, body)
    ensures Present(f, body) ==> QueryOf(fields, body, codec)[f.name] == codec.convert(f, Given(f, body)).value
  {
    var front, last := fields[..|fields| - 1], fields[|fields| - 1];
    if f == last {
      OnlyFieldNames(front, body, codec);
    } else {
      var i :| 0 <= i < |fields| && fields[i] == f;
      assert front[i] == f;
      QueryHolds(front, body, codec, f);
    }
  }

  lemma {:induction false} OnlyFieldNames(fields: seq<Field>, body: Body, codec: Codec)
    requires Parses(fields, body, codec)
    ensures forall k :: k in QueryOf(fields, body, codec) ==> exists f :: f in fields && f.name == k
  {
    if fields != [] {
      OnlyFieldNames(fields[..|fields| - 1], body, codec);
    }
  }

  /**
   * Whenever normalising succeeds, the handler reads the same value for every field of the message, whichever
   * spelling the body used, and reads nothing new; a request that was not a GET with only a body reads as before.
   */
  lemma NormalizingKeepsTheMessage(r: Request, fields: seq<Field>, codec: Codec, f: Field)
    requires DistinctNames(fields) && Stable(codec) && f in fields
    requires Normalized(r, fields, codec).1
    ensures HandlerReads(Normalized(r, fields, codec).0, f, codec) == HandlerReads(r, f, codec)
  {
    var d := Decoded(r, codec).value;
    if r.verb == "GET" && r.query == map[] && HasObjectBody(d) {
      var body := d.body.value.fields;
      QueryHolds(fields, body, codec, f);
      if Present(f, body) {
        assert codec.convert(f, Given(f, body)).Some?;
      }
    }
  }

  /**
   * It refuses exactly when a string body is no JSON object, or a GET with only a body gives some field in both
   * spellings or with a value the message does not take.
   */
  lemma RefusedIff(r: Request, fields: seq<Field>, codec: Codec)
    ensures !Normalized(r, fields, codec).1 <==>
      || Decoded(r, codec).None?
      || (r.verb == "GET" && r.query == map[] && exists f :: f in fields && HandlerReads(r, f, codec) == Refused)
  {
    if Decoded(r, codec).Some? && r.verb == "GET" && r.query == map[] && HasObjectBody(Decoded(r, codec).value) {
      var body := Decoded(r, codec).value.body.value.fields;
      assert forall f :: HandlerReads(r, f, codec) == BodyReading(f, body, codec);
      assert (exists f :: f in fields && BodyReading(f, body, codec) == Refused) <==> !Usable(fields, body, codec);
    }
  }

  /** Normalising a normalised request changes nothing. */
  lemma NormalizingIsIdempotent(r: Request, fields: seq<Field>, codec: Codec)
    requires Normalized(r, fields, codec).1
    ensures Normalized(Normalized(r, fields, codec).0, fields, codec) == Normalized(r, fields, codec)
  {
  }

  /** Where both spellings are not given, a body reads as its one given value, converted. */
  lemma ReadingOfGiven(f: Field, body: Body, codec: Codec)
    requires !BothSpellings(f, body)
    ensures BodyReading(f, body, codec) == if Present(f, body) then Converted(f, Given(f, body), codec) else Absent
  {
  }

  /** The spelling a client chose cannot matter: bodies that read the same give the same query. */
  lemma {:induction false} SpellingDoesNotMatter(fields: seq<Field>, a: Body, b: Body, codec: Codec)
    requires Usable(fields, a, codec) && Usable(fields, b, codec)
    requires forall f :: f in fields ==> BodyReading(f, a, codec) == BodyReading(f, b, codec)
    ensures QueryOf(fields, a, codec) == QueryOf(fields, b, codec)
  {
    if fields != [] {
      var front, f := fields[..|fields| - 1], fields[|fields| - 1];
      SpellingDoesNotMatter(front, a, b, codec);
      assert f in fields;
      ReadingOfGiven(f, a, codec);
      ReadingOfGiven(f, b, codec);
    }
  }
}
