/** The names a rule's parsers find in a request (`resolve_resource_names`). */
module ResourceNames {
  import opened Wrappers
  import opened Json
  import opened Requests

  /** What one parser gives: raw values, a missing reference, or a failure. */
  datatype Parsed = Found(values: seq<Value>) | NotPresent | Failed

  type Parser = Request -> Parsed

  /** What all of them give. */
  datatype Resolution = Names(names: seq<string>) | Missing | Unresolved

  function AddNames(names: seq<string>, values: seq<Value>): (r: seq<string>)
    ensures forall n :: n in r <==> n in names || exists v :: v in values && NormalizeText(v) == Some(n)
    ensures names <= r
  {
    if values == [] then names
    else
      var front := AddNames(names, values[..|values| - 1]);
      var last := NormalizeText(values[|values| - 1]);
      if last.None? || last.value in front then front else front + [last.value]
  }

  function Gathered(parsers: string -> Option<Parser>, r: Request, ids: seq<string>): Resolution {
    if ids == [] then Names([])
    else
      var front := Gathered(parsers, r, ids[..|ids| - 1]);
      if !front.Names? then front
      else if parsers(ids[|ids| - 1]).None? then Unresolved
      else
        match parsers(ids[|ids| - 1]).value(r)
        case Found(values) => Names(AddNames(front.names, values))
        case NotPresent => Missing
        case Failed => Unresolved
  }

  function Resolve(parsers: string -> Option<Parser>, r: Request, ids: seq<string>): Resolution {
    var all := Gathered(parsers, r, ids);
    if all == Names([]) then Unresolved else all
  }

  lemma {:induction false} FirstFailureStands(parsers: string -> Option<Parser>, r: Request, ids: seq<string>, n: nat)
    requires n <= |ids| && !Gathered(parsers, r, ids[..n]).Names?
    ensures Gathered(parsers, r, ids) == Gathered(parsers, r, ids[..n])
    decreases |ids|
  {
    if n == |ids| {
      assert ids[..n] == ids;
    } else {
      var front := ids[..|ids| - 1];
      assert front[..n] == ids[..n];
      FirstFailureStands(parsers, r, front, n);
    }
  }

  /** `resolve_resource_names`. */
  method ResolveResourceNames(parsers: string -> Option<Parser>, r: Request, ids: seq<string>) returns (result: Resolution)
    ensures result == Resolve(parsers, r, ids)
  {
    var names: seq<string> := [];
    for i := 0 to |ids|
      invariant Gathered(parsers, r, ids[..i]) == Names(names)
    {
      assert ids[..i + 1][..i] == ids[..i];
      var parser := parsers(ids[i]);
      if parser.None? {
        FirstFailureStands(parsers, r, ids, i + 1);
        return Unresolved;
      }
      match parser.value(r) {
        case NotPresent =>
          FirstFailureStands(parsers, r, ids, i + 1);
          return Missing;
        case Failed =>
          FirstFailureStands(parsers, r, ids, i + 1);
          return Unresolved;
        case Found(values) =>
          var before := names;
          for j := 0 to |values|
            invariant names == AddNames(before, values[..j])
          {
            assert values[..j + 1][..j] == values[..j];
            var name := NormalizeText(values[j]);
            if name.None? || name.value in names {
              continue;
            }
            names := names + [name.value];
          }
          assert values[..|values|] == values;
      }
    }
    assert ids[..|ids|] == ids;
    return if names == [] then Unresolved else Names(names);
  }

  ghost predicate Gives(parsers: string -> Option<Parser>, r: Request, id: string, name: string) {
    && parsers(id).Some? && parsers(id).value(r).Found?
    && exists v :: v in parsers(id).value(r).values && NormalizeText(v) == Some(name)
  }

  predicate Finds(parsers: string -> Option<Parser>, r: Request, id: string) {
    parsers(id).Some? && parsers(id).value(r).Found?
  }

  /** Some parser gives the name. */
  ghost predicate GivenBySome(parsers: string -> Option<Parser>, r: Request, ids: seq<string>, name: string) {
    exists id :: id in ids && Gives(parsers, r, id, name)
  }

  lemma OneMoreParser(parsers: string -> Option<Parser>, r: Request, front: seq<string>, last: string, name: string)
    ensures GivenBySome(parsers, r, front + [last], name) <==> GivenBySome(parsers, r, front, name) || Gives(parsers, r, last, name)
  {
    if Gives(parsers, r, last, name) {
      assert last in front + [last];
    }
    if GivenBySome(parsers, r, front, name) {
      var id :| id in front && Gives(parsers, r, id, name);
      assert id in front + [last];
    }
  }

  ghost predicate Distinct(names: seq<string>) {
    forall i, j :: 0 <= i < j < |names| ==> names[i] != names[j]
  }

  lemma {:induction false} AddingKeepsDistinct(names: seq<string>, values: seq<Value>)
    requires Distinct(names)
    ensures Distinct(AddNames(names, values))
  {
    if values != [] {
      var front := AddNames(names, values[..|values| - 1]);
      AddingKeepsDistinct(names, values[..|values| - 1]);
      assert AddNames(names, values) == front || (exists n :: n !in front && AddNames(names, values) == front + [n]);
    }
  }

  lemma {:induction false} GatheredIsExact(parsers: string -> Option<Parser>, r: Request, ids: seq<string>)
    ensures Gathered(parsers, r, ids).Names? <==> forall id :: id in ids ==> Finds(parsers, r, id)
    ensures Gathered(parsers, r, ids).Names? ==>
              var names := Gathered(parsers, r, ids).names;
              Distinct(names) && forall n :: n in names <==> GivenBySome(parsers, r, ids, n)
  {
    if ids != [] {
      var front, last := ids[..|ids| - 1], ids[|ids| - 1];
      assert ids == front + [last];
      GatheredIsExact(parsers, r, front);
      if Gathered(parsers, r, front).Names? && Finds(parsers, r, last) {
        AddingIsExact(parsers, r, front, last, Gathered(parsers, r, front).names);
      }
    }
  }

  lemma AddingIsExact(parsers: string -> Option<Parser>, r: Request, front: seq<string>, last: string, names: seq<string>)
    requires Finds(parsers, r, last) && Distinct(names) && forall n :: n in names <==> GivenBySome(parsers, r, front, n)
    ensures var all := AddNames(names, parsers(last).value(r).values);
            Distinct(all) && forall n :: n in all <==> GivenBySome(parsers, r, front + [last], n)
  {
    var all := AddNames(names, parsers(last).value(r).values);
    AddingKeepsDistinct(names, parsers(last).value(r).values);
    forall n ensures n in all <==> GivenBySome(parsers, r, front + [last], n) {
      OneMoreParser(parsers, r, front, last, n);
    }
  }

  /**
   * Names come back exactly when every parser finds values and some value is usable; then they are all the
   * usable values found, each once, and at least one.
   */
  lemma ResolutionIsExact(parsers: string -> Option<Parser>, r: Request, ids: seq<string>)
    ensures Resolve(parsers, r, ids).Names? <==>
      (forall id :: id in ids ==> Finds(parsers, r, id)) && exists n :: GivenBySome(parsers, r, ids, n)
    ensures Resolve(parsers, r, ids).Names? ==>
              var names := Resolve(parsers, r, ids).names;
              names != [] && Distinct(names) && forall n :: n in names <==> GivenBySome(parsers, r, ids, n)
  {
    GatheredIsExact(parsers, r, ids);
    var all := Gathered(parsers, r, ids);
    if all.Names? && all.names != [] {
      assert all.names[0] in all.names;
    }
  }

  /** The first parser that gives no values reports a missing reference. */
  predicate LacksAt(parsers: string -> Option<Parser>, r: Request, ids: seq<string>, k: nat) {
    && k < |ids| && (forall j :: 0 <= j < k ==> Finds(parsers, r, ids[j]))
    && parsers(ids[k]).Some? && parsers(ids[k]).value(r).NotPresent?
  }

  lemma {:induction false} GatheredMissingIff(parsers: string -> Option<Parser>, r: Request, ids: seq<string>)
    ensures Gathered(parsers, r, ids).Missing? <==> exists k: nat :: LacksAt(parsers, r, ids, k)
  {
    if ids != [] {
      var front := ids[..|ids| - 1];
      GatheredMissingIff(parsers, r, front);
      GatheredIsExact(parsers, r, front);
      if k: nat :| LacksAt(parsers, r, front, k) {
        assert LacksAt(parsers, r, ids, k);
      }
      if k: nat :| LacksAt(parsers, r, ids, k) && k < |front| {
        assert LacksAt(parsers, r, front, k);
      }
      if Gathered(parsers, r, ids).Missing? && Gathered(parsers, r, front).Names? {
        assert LacksAt(parsers, r, ids, |front|);
      }
    }
  }

  /** A missing reference comes back exactly when it is what the first parser without values reports. */
  lemma MissingIff(parsers: string -> Option<Parser>, r: Request, ids: seq<string>)
    ensures Resolve(parsers, r, ids).Missing? <==> exists k: nat :: LacksAt(parsers, r, ids, k)
  {
    GatheredMissingIff(parsers, r, ids);
  }
}
