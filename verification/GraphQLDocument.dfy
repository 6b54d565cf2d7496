/**
 * Parsed GraphQL documents, and what reaching a selection means (field collection, section 6.3.2 of the
 * GraphQL specification, October 2021): a chain of selections, each among the children of the one before.
 * A chain is at root level until it enters a field, and below that root field from then on.
 */
module GraphQLDocument {
  import opened Json

  /** An absent selection set is the empty one: neither contributes anything. */
  datatype Selection =
    | Field(name: string, args: map<string, Value>, sub: seq<Selection>)
    | Inline(sub: seq<Selection>)
    | Spread(fragment: string)

  datatype Definition = Operation(selections: seq<Selection>) | Fragment(name: string, selections: seq<Selection>)

  type Fragments = map<string, seq<Selection>>

  datatype Place = AtRoot | Below(field: string)

  /** A selection where it is met. */
  datatype Spot = Spot(at: Place, sel: Selection)

  /** Definition `i` is the last of its name. */
  ghost predicate DefinesLast(defs: seq<Definition>, i: nat, name: string) {
    && i < |defs| && defs[i].Fragment? && defs[i].name == name
    && forall j :: i < j < |defs| && defs[j].Fragment? ==> defs[j].name != name
  }

  /** Each name means the selections of the last fragment definition of it, and nothing without one. */
  ghost predicate Defines(defs: seq<Definition>, frags: Fragments) {
    && (forall name :: name in frags <==> exists i :: 0 <= i < |defs| && defs[i].Fragment? && defs[i].name == name)
    && (forall name, i: nat :: name in frags && DefinesLast(defs, i, name) ==> frags[name] == defs[i].selections)
  }

  lemma {:induction false} SomeDefinesLast(defs: seq<Definition>, name: string) returns (i: nat)
    requires exists j :: 0 <= j < |defs| && defs[j].Fragment? && defs[j].name == name
    ensures DefinesLast(defs, i, name)
  {
    i := |defs| - 1;
    if !(defs[i].Fragment? && defs[i].name == name) {
      i := SomeDefinesLast(defs[..i], name);
    }
  }

  /** A document defines its fragments in one way. */
  lemma FragmentsAreUnique(defs: seq<Definition>, a: Fragments, b: Fragments)
    requires Defines(defs, a) && Defines(defs, b)
    ensures a == b
  {
    forall name | name in a ensures a[name] == b[name] {
      var i := SomeDefinesLast(defs, name);
    }
  }

  function Children(frags: Fragments, sel: Selection): seq<Selection> {
    match sel
    case Field(_, _, sub) => sub
    case Inline(sub) => sub
    case Spread(fragment) => if fragment in frags then frags[fragment] else []
  }

  /** Where the children of a selection are. */
  function Inside(spot: Spot): Place {
    if spot.at.AtRoot? && spot.sel.Field? then Below(spot.sel.name) else spot.at
  }

  ghost predicate StepsTo(frags: Fragments, a: Spot, b: Spot) {
    b.at == Inside(a) && b.sel in Children(frags, a.sel)
  }

  ghost predicate IsChain(frags: Fragments, start: seq<Selection>, chain: seq<Spot>) {
    && |chain| > 0 && chain[0].at.AtRoot? && chain[0].sel in start
    && forall i :: 0 <= i < |chain| - 1 ==> StepsTo(frags, chain[i], chain[i + 1])
  }

  ghost predicate ChainTo(frags: Fragments, start: seq<Selection>, chain: seq<Spot>, spot: Spot) {
    IsChain(frags, start, chain) && chain[|chain| - 1] == spot
  }

  ghost predicate Reaches(frags: Fragments, start: seq<Selection>, spot: Spot) {
    exists chain :: ChainTo(frags, start, chain, spot)
  }

  // ----- Chains that expand each fragment in one place only -----

  /** Where each fragment is expanded. */
  type Places = map<string, Place>

  /** A spread leads on only in the place its fragment is expanded. */
  predicate Opens(places: Places, spot: Spot) {
    spot.sel.Spread? ==> spot.sel.fragment in places && places[spot.sel.fragment] == spot.at
  }

  ghost predicate OpenChainTo(frags: Fragments, start: seq<Selection>, places: Places, chain: seq<Spot>, spot: Spot) {
    ChainTo(frags, start, chain, spot) && forall i :: 0 <= i < |chain| - 1 ==> Opens(places, chain[i])
  }

  ghost predicate Follows(frags: Fragments, start: seq<Selection>, places: Places, spot: Spot) {
    exists chain :: OpenChainTo(frags, start, places, chain, spot)
  }

  lemma StartIsFollowed(frags: Fragments, start: seq<Selection>, places: Places, s: Selection)
    requires s in start
    ensures Follows(frags, start, places, Spot(AtRoot, s))
  {
    assert OpenChainTo(frags, start, places, [Spot(AtRoot, s)], Spot(AtRoot, s));
  }

  lemma FollowsOn(frags: Fragments, start: seq<Selection>, places: Places, a: Spot, b: Spot)
    requires Follows(frags, start, places, a) && Opens(places, a) && StepsTo(frags, a, b)
    ensures Follows(frags, start, places, b)
  {
    var chain :| OpenChainTo(frags, start, places, chain, a);
    var longer := chain + [b];
    forall i | 0 <= i < |longer| - 1 ensures StepsTo(frags, longer[i], longer[i + 1]) && Opens(places, longer[i]) {
      assert longer[i] == chain[i];
    }
    assert OpenChainTo(frags, start, places, longer, b);
  }

  /** Expanding more fragments keeps what was followed. */
  lemma MorePlaces(frags: Fragments, start: seq<Selection>, places: Places, more: Places, spot: Spot)
    requires Follows(frags, start, places, spot) && forall n :: n in places ==> n in more && more[n] == places[n]
    ensures Follows(frags, start, more, spot)
  {
    var chain :| OpenChainTo(frags, start, places, chain, spot);
    assert OpenChainTo(frags, start, more, chain, spot);
  }

  lemma FollowedIsReached(frags: Fragments, start: seq<Selection>, places: Places, spot: Spot)
    requires Follows(frags, start, places, spot)
    ensures Reaches(frags, start, spot)
  {
    var chain :| OpenChainTo(frags, start, places, chain, spot);
    assert ChainTo(frags, start, chain, spot);
  }

  // ----- Conditions on a document -----

  /** The fragment is spread in this place and in no other. */
  ghost predicate SpreadOnlyAt(frags: Fragments, start: seq<Selection>, fragment: string, at: Place) {
    forall place :: Reaches(frags, start, Spot(place, Spread(fragment))) ==> place == at
  }

  /** No fragment is spread both at root level and below a field. */
  ghost predicate RootAndNestedFragmentsDisjoint(frags: Fragments, start: seq<Selection>) {
    forall fragment :: Reaches(frags, start, Spot(AtRoot, Spread(fragment))) ==> SpreadOnlyAt(frags, start, fragment, AtRoot)
  }

  /** Besides, no fragment is spread below two different root fields. */
  ghost predicate FragmentsHaveOnePlace(frags: Fragments, start: seq<Selection>) {
    forall fragment, place :: Reaches(frags, start, Spot(place, Spread(fragment))) ==> SpreadOnlyAt(frags, start, fragment, place)
  }
}
