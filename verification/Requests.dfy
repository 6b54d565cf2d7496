/** The request record the authorizer reads and rewrites, its lazily loaded body, and value normalisation. */
module Requests {
  import opened Wrappers
  import opened Strings
  import opened Json

  /**
   * `verb` is the upper-case method. A body that is not loaded, or did not parse, is absent; `loader` is
   * what loading would yield, until it has been used; `loads` counts its uses.
   */
  datatype Request = Request(
    path: string,
    verb: string,
    workspace: Option<string>,
    pathParams: map<string, Value>,
    query: map<string, Value>,
    body: Option<Value>,
    loader: Option<Option<Value>>,
    loads: nat)

  predicate HasObjectBody(r: Request) {
    r.body.Some? && r.body.value.Object?
  }

  predicate BodyHas(r: Request, key: string) {
    HasObjectBody(r) && key in r.body.value.fields
  }

  function BodyField(r: Request, key: string): Value
    requires BodyHas(r, key)
  {
    r.body.value.fields[key]
  }

  /** `_ensure_request_context_json_body`. */
  function Load(r: Request, allowGetBody: bool): (r': Request)
    ensures r' == r || (r.body.None? && r.loader.Some? && r'.loader.None? && r'.body == r.loader.value && r'.query == r.query)
    ensures r'.loader.None? || r' == r
    ensures r'.path == r.path && r'.verb == r.verb && r'.workspace == r.workspace && r'.pathParams == r.pathParams && r'.query == r.query
  {
    if r.body.Some? || r.loader.None? then r
    else if r.verb == "GET" && r.query != map[] && !allowGetBody then r
    else r.(body := r.loader.value, loader := None, loads := r.loads + 1)
  }

  /** The body could still be read. */
  predicate Unread(r: Request) {
    r.body.None? && r.loader.Some?
  }

  /** The request with its body, read already or not: what a handler has before it. */
  function Whole(r: Request): (r': Request)
    ensures !Unread(r')
    ensures r'.path == r.path && r'.verb == r.verb && r'.workspace == r.workspace && r'.pathParams == r.pathParams && r'.query == r.query
  {
    if Unread(r) then r.(body := r.loader.value, loader := None, loads := r.loads + 1) else r
  }

  /** Loading gives the whole request, or leaves it as it was. */
  lemma LoadingKeepsTheWhole(r: Request, allowGetBody: bool)
    ensures Whole(Load(r, allowGetBody)) == Whole(r)
    ensures Load(r, allowGetBody) == Whole(r) || Load(r, allowGetBody) == r
    ensures allowGetBody || r.verb != "GET" || r.query == map[] ==> Load(r, allowGetBody) == Whole(r)
  {
  }

  /** `_normalize_string`. */
  function NormalizeText(v: Value): (r: Option<string>)
    ensures r.Some? ==> r.value != "" && Strip(r.value) == r.value
  {
    if v.Text? && Strip(v.s) != "" then (StripIsIdempotent(v.s); Some(Strip(v.s))) else None
  }

  /** The value is text with this between white space. */
  ghost predicate Says(v: Value, n: string) {
    v.Text? && Trims(v.s, n)
  }

  /** The usable text of a value is what it has between white space. */
  lemma NormalizedIff(v: Value, n: string)
    ensures NormalizeText(v) == Some(n) <==> Says(v, n)
  {
    if v.Text? {
      StripTrims(v.s, n);
    }
  }

  /** The value says this, or is a list of which an item does. */
  ghost predicate SaysAmong(v: Value, n: string) {
    Says(v, n) || (v.List? && exists item :: item in v.items && Says(item, n))
  }

  lemma NormalizedValuesIff(v: Value, n: string)
    ensures n in NormalizeValues(v) <==> SaysAmong(v, n)
  {
    NormalizedIff(v, n);
    if v.List? {
      forall item ensures NormalizeText(item) == Some(n) <==> Says(item, n) {
        NormalizedIff(item, n);
      }
    }
  }

  function NormalizeAll(values: seq<Value>): (r: seq<string>)
    ensures forall s :: s in r <==> exists v :: v in values && NormalizeText(v) == Some(s)
  {
    if values == [] then []
    else
      var front := NormalizeAll(values[..|values| - 1]);
      var last := NormalizeText(values[|values| - 1]);
      if last.Some? then front + [last.value] else front
  }

  /** `_normalize_request_values`: the usable strings of a list or a single value. */
  function NormalizeValues(v: Value): seq<string> {
    match v
    case List(items) => NormalizeAll(items)
    case Text(_) => if NormalizeText(v).Some? then [NormalizeText(v).value] else []
    case _ => []
  }

  function TextList(ids: seq<string>): (r: Value)
    ensures r.List? && |r.items| == |ids|
  {
    List(seq(|ids|, i requires 0 <= i < |ids| => Text(ids[i])))
  }

  /** An id that normalisation leaves alone. */
  predicate Clean(id: string) {
    NormalizeText(Text(id)) == Some(id)
  }

  lemma NormalizeOneMore(items: seq<Value>, id: string)
    requires Clean(id)
    ensures NormalizeAll(items + [Text(id)]) == NormalizeAll(items) + [id]
  {
    assert (items + [Text(id)])[..|items|] == items;
  }

  lemma TextListOneMore(ids: seq<string>, id: string)
    ensures TextList(ids + [id]).items == TextList(ids).items + [Text(id)]
  {
  }

  /** Clean ids survive being written into a request and read back. */
  lemma {:induction false} TextListReadsBack(ids: seq<string>)
    requires forall i :: 0 <= i < |ids| ==> Clean(ids[i])
    ensures NormalizeValues(TextList(ids)) == ids
  {
    if ids != [] {
      var front, last := ids[..|ids| - 1], ids[|ids| - 1];
      assert front + [last] == ids;
      TextListReadsBack(front);
      TextListOneMore(front, last);
      NormalizeOneMore(TextList(front).items, last);
    }
  }
}
