/**
 * The document traversal behind GraphQL authorization (`extract_graphql_query_info`): an explicit stack, and
 * one visited set for all fragment spreads of an operation. What it reports is compared with all chains.
 */
module GraphQLTraversal {
  import opened Wrappers
  import opened Json
  import opened GraphQLDocument

  const NESTED_REGISTRY_FIELD := "modelVersions"

  datatype RootField = RootField(name: string, args: map<string, Value>)

  datatype QueryInfo = QueryInfo(
    rootFields: set<string>,
    nestedAccess: bool,
    nestedRoots: set<string>,
    inputs: seq<RootField>)

  const EMPTY_INFO := QueryInfo({}, false, {}, [])

  /** A selection set to scan, its level, and the root field it belongs to. */
  datatype Frame = Frame(sels: seq<Selection>, isRoot: bool, root: Option<string>)

  /** `visited` also says where each fragment was met first; the program keeps, and needs, only its keys. */
  datatype Walk = Walk(stack: seq<Frame>, visited: Places, info: QueryInfo)

  function PlaceOf(isRoot: bool, root: Option<string>): Place {
    if isRoot || root.None? then AtRoot else Below(root.value)
  }

  function Push(w: Walk, f: Frame): Walk {
    if |f.sels| > 0 then w.(stack := w.stack + [f]) else w
  }

  /** What a field contributes to the report. */
  function Report(info: QueryInfo, name: string, args: map<string, Value>, isRoot: bool, root: Option<string>): QueryInfo {
    var seen := if isRoot then info.(rootFields := info.rootFields + {name}, inputs := info.inputs + [RootField(name, args)]) else info;
    if name == NESTED_REGISTRY_FIELD then
      seen.(nestedAccess := true, nestedRoots := if root.Some? then seen.nestedRoots + {root.value} else seen.nestedRoots)
    else seen
  }

  /** The body of the loop over one selection set, for one selection. */
  function Scan(frags: Fragments, w: Walk, sel: Selection, isRoot: bool, root: Option<string>): (r: (Walk, Option<string>)) {
    match sel
    case Field(name, args, sub) =>
      var root' := if isRoot then Some(name) else root;
      (Push(w.(info := Report(w.info, name, args, isRoot, root')), Frame(sub, false, root')), root')
    case Inline(sub) => (Push(w, Frame(sub, isRoot, root)), root)
    case Spread(fragment) =>
      if fragment in w.visited then (w, root)
      else
        var w' := w.(visited := w.visited[fragment := PlaceOf(isRoot, root)]);
        (if fragment in frags then Push(w', Frame(frags[fragment], isRoot, root)) else w', root)
  }

  /** The whole loop over one selection set. */
  function ScanAll(frags: Fragments, w: Walk, sels: seq<Selection>, isRoot: bool, root: Option<string>): (r: Walk)
    decreases |sels|
  {
    if sels == [] then w
    else
      var (w', root') := Scan(frags, w, sels[0], isRoot, root);
      ScanAll(frags, w', sels[1..], isRoot, root')
  }

  function Popped(w: Walk): Walk
    requires w.stack != []
  {
    w.(stack := w.stack[..|w.stack| - 1])
  }

  /** One turn of the outer loop. */
  function Turn(frags: Fragments, w: Walk): (r: Walk)
    requires w.stack != []
  {
    var top := w.stack[|w.stack| - 1];
    ScanAll(frags, Popped(w), top.sels, top.isRoot, top.root)
  }

  // ----- Termination: unvisited fragments, then what is left on the stack -----

  function Weight(sels: seq<Selection>): nat {
    if sels == [] then 0
    else
      (match sels[0]
       case Field(_, _, sub) => 2 + Weight(sub)
       case Inline(sub) => 2 + Weight(sub)
       case Spread(_) => 1) + Weight(sels[1..])
  }

  function StackWeight(stack: seq<Frame>): nat {
    if stack == [] then 0 else 1 + Weight(stack[|stack| - 1].sels) + StackWeight(stack[..|stack| - 1])
  }

  function Unvisited(frags: Fragments, visited: Places): set<string> {
    frags.Keys - visited.Keys
  }

  /** Scanning lowers the measure: a fragment is newly visited, or the stack gains less than was scanned. */
  lemma ScanLowersMeasure(frags: Fragments, w: Walk, sels: seq<Selection>, isRoot: bool, root: Option<string>)
    requires sels != []
    ensures var w' := Scan(frags, w, sels[0], isRoot, root).0;
            && Unvisited(frags, w'.visited) <= Unvisited(frags, w.visited)
            && (Unvisited(frags, w'.visited) == Unvisited(frags, w.visited)
                ==> StackWeight(w'.stack) + Weight(sels[1..]) < StackWeight(w.stack) + Weight(sels))
  {
    var w' := Scan(frags, w, sels[0], isRoot, root).0;
    if |w'.stack| > |w.stack| {
      assert w'.stack[..|w'.stack| - 1] == w.stack;
      if sels[0].Spread? {
        assert sels[0].fragment in Unvisited(frags, w.visited) && sels[0].fragment !in Unvisited(frags, w'.visited);
      }
    }
  }

  lemma {:induction false} ScanAllLowersMeasure(frags: Fragments, w: Walk, sels: seq<Selection>, isRoot: bool, root: Option<string>)
    ensures var w' := ScanAll(frags, w, sels, isRoot, root);
            && Unvisited(frags, w'.visited) <= Unvisited(frags, w.visited)
            && (Unvisited(frags, w'.visited) == Unvisited(frags, w.visited) ==> StackWeight(w'.stack) <= StackWeight(w.stack) + Weight(sels))
    decreases |sels|
  {
    if sels != [] {
      ScanLowersMeasure(frags, w, sels, isRoot, root);
      var (w', root') := Scan(frags, w, sels[0], isRoot, root);
      ScanAllLowersMeasure(frags, w', sels[1..], isRoot, root');
    }
  }

  /** One turn visits a fragment more, or leaves a lighter stack. */
  lemma TurnLowersMeasure(frags: Fragments, w: Walk)
    requires w.stack != []
    ensures Unvisited(frags, Turn(frags, w).visited) <= Unvisited(frags, w.visited)
    ensures Unvisited(frags, Turn(frags, w).visited) == Unvisited(frags, w.visited) ==> StackWeight(Turn(frags, w).stack) < StackWeight(w.stack)
  {
    var top := w.stack[|w.stack| - 1];
    ScanAllLowersMeasure(frags, Popped(w), top.sels, top.isRoot, top.root);
  }

  /** The outer loop, to the end. */
  function Explore(frags: Fragments, w: Walk): (r: Walk)
    decreases Unvisited(frags, w.visited), StackWeight(w.stack)
  {
    if w.stack == [] then w
    else
      TurnLowersMeasure(frags, w);
      Explore(frags, Turn(frags, w))
  }

  function Begin(start: seq<Selection>, before: QueryInfo): Walk {
    Walk([Frame(start, true, None)], map[], before)
  }

  /** The loop over one popped selection set. */
  method ScanSet(frags: Fragments, w0: Walk, frame: Frame) returns (w: Walk)
    ensures w == ScanAll(frags, w0, frame.sels, frame.isRoot, frame.root)
  {
    w := w0;
    var root := frame.root;
    assert frame.sels[0..] == frame.sels;
    for i := 0 to |frame.sels|
      invariant ScanAll(frags, w, frame.sels[i..], frame.isRoot, root) == ScanAll(frags, w0, frame.sels, frame.isRoot, frame.root)
    {
      assert frame.sels[i..][1..] == frame.sels[i + 1..];
      var scanned := Scan(frags, w, frame.sels[i], frame.isRoot, root);
      w, root := scanned.0, scanned.1;
    }
  }

  /** The traversal of one operation; it terminates on every document, cyclic fragments included. */
  method TraverseOperation(frags: Fragments, start: seq<Selection>, before: QueryInfo) returns (info: QueryInfo)
    ensures info == Explore(frags, Begin(start, before)).info
  {
    var w := Begin(start, before);
    while w.stack != []
      invariant Explore(frags, w) == Explore(frags, Begin(start, before))
      decreases Unvisited(frags, w.visited), StackWeight(w.stack)
    {
      TurnLowersMeasure(frags, w);
      w := ScanSet(frags, Popped(w), w.stack[|w.stack| - 1]);
    }
    info := w.info;
  }

  // ----- The invariant of the walk -----

  /** The spot waits in a frame. */
  ghost predicate Held(frames: seq<Frame>, spot: Spot) {
    exists i :: 0 <= i < |frames| && InFrame(frames[i], spot)
  }

  predicate InFrame(f: Frame, spot: Spot) {
    spot.at == PlaceOf(f.isRoot, f.root) && spot.sel in f.sels
  }

  /** Only frames below a root field lack the root level, and they know the field. */
  predicate FrameOk(f: Frame) {
    f.isRoot || f.root.Some?
  }

  ghost predicate FramesOk(frags: Fragments, start: seq<Selection>, visited: Places, frames: seq<Frame>) {
    && (forall i :: 0 <= i < |frames| ==> FrameOk(frames[i]))
    && (forall b :: Held(frames, b) ==> Follows(frags, start, visited, b))
  }

  /** What has been scanned is followed, and what follows from it has been scanned or waits. */
  ghost predicate Closed(frags: Fragments, start: seq<Selection>, visited: Places, frames: seq<Frame>, done: set<Spot>) {
    && (forall s :: s in start ==> Spot(AtRoot, s) in done || Held(frames, Spot(AtRoot, s)))
    && (forall a, b :: a in done && Opens(visited, a) && StepsTo(frags, a, b) ==> b in done || Held(frames, b))
    && (forall a :: a in done ==> Follows(frags, start, visited, a))
  }

  /** A fragment is visited when a spread of it has been scanned, in the place of the first. */
  ghost predicate VisitsAreScans(visited: Places, done: set<Spot>) {
    && (forall a :: a in done && a.sel.Spread? ==> a.sel.fragment in visited)
    && (forall n :: n in visited ==> Spot(visited[n], Spread(n)) in done)
  }

  /** The root field a spot belongs to. */
  function Owner(spot: Spot): string
    requires spot.sel.Field?
  {
    if spot.at.AtRoot? then spot.sel.name else spot.at.field
  }

  predicate IsRootField(spot: Spot, f: RootField) {
    spot.at.AtRoot? && spot.sel.Field? && spot.sel.name == f.name && spot.sel.args == f.args
  }

  predicate IsRegistry(spot: Spot) {
    spot.sel.Field? && spot.sel.name == "modelVersions"
  }

  predicate IsRegistryOf(spot: Spot, root: string) {
    IsRegistry(spot) && Owner(spot) == root
  }

  ghost predicate SomeRootField(done: set<Spot>, f: RootField) {
    exists a :: a in done && IsRootField(a, f)
  }

  ghost predicate SomeRegistry(done: set<Spot>, root: string) {
    exists a :: a in done && IsRegistryOf(a, root)
  }

  ghost predicate Coherent(info: QueryInfo) {
    && (forall name :: name in info.rootFields <==> exists f :: f in info.inputs && f.name == name)
    && (info.nestedAccess <==> info.nestedRoots != {})
  }

  /** Compared with the report before, exactly what has been scanned is added. */
  ghost predicate Reported(before: QueryInfo, info: QueryInfo, done: set<Spot>) {
    && Coherent(info)
    && (forall f :: f in info.inputs <==> f in before.inputs || SomeRootField(done, f))
    && (forall r :: r in info.nestedRoots <==> r in before.nestedRoots || SomeRegistry(done, r))
  }

  ghost predicate Invariant(frags: Fragments, start: seq<Selection>, before: QueryInfo, w: Walk, frames: seq<Frame>, done: set<Spot>) {
    && FramesOk(frags, start, w.visited, frames)
    && Closed(frags, start, w.visited, frames, done)
    && VisitsAreScans(w.visited, done)
    && Reported(before, w.info, done)
  }

  function Here(cur: Frame): Spot
    requires cur.sels != []
  {
    Spot(PlaceOf(cur.isRoot, cur.root), cur.sels[0])
  }

  /** The walk and the rest of the current set after one scan. */
  function Next(frags: Fragments, w: Walk, cur: Frame): (Walk, Frame)
    requires cur.sels != []
  {
    var (w', root') := Scan(frags, w, cur.sels[0], cur.isRoot, cur.root);
    (w', Frame(cur.sels[1..], cur.isRoot, root'))
  }

  /** Frames after one scan: what waited still waits, except what was scanned; and what waits had waited or is a child. */
  lemma ScanFrames(frags: Fragments, w: Walk, cur: Frame)
    requires cur.sels != [] && FrameOk(cur)
    ensures var (w', rest) := Next(frags, w, cur);
            var before, after, a := w.stack + [cur], w'.stack + [rest], Here(cur);
            && FrameOk(rest) && PlaceOf(rest.isRoot, rest.root) == PlaceOf(cur.isRoot, cur.root)
            && (forall b :: Held(before, b) && b != a ==> Held(after, b))
  {
    var (w', rest) := Next(frags, w, cur);
    var before, after, a := w.stack + [cur], w'.stack + [rest], Here(cur);
    assert cur.sels == [cur.sels[0]] + cur.sels[1..];
    forall b | Held(before, b) && b != a ensures Held(after, b) {
      var i :| 0 <= i < |before| && InFrame(before[i], b);
      assert InFrame(after[if i == |w.stack| then |w'.stack| else i], b);
    }
  }

  /** What waits after one scan waited before, or is a child of what was scanned, newly expanded. */
  lemma ScanOnlyAddsChildren(frags: Fragments, w: Walk, cur: Frame, b: Spot)
    requires cur.sels != [] && FrameOk(cur)
    ensures var (w', rest) := Next(frags, w, cur);
            && (Held(w'.stack + [rest], b) ==> Held(w.stack + [cur], b) || (StepsTo(frags, Here(cur), b) && Opens(w'.visited, Here(cur))))
            && (forall i :: 0 <= i < |w'.stack| ==> i < |w.stack| || FrameOk(w'.stack[i]))
            && w.stack <= w'.stack
  {
    var (w', rest) := Next(frags, w, cur);
    var before, after := w.stack + [cur], w'.stack + [rest];
    assert cur.sels == [cur.sels[0]] + cur.sels[1..];
    if Held(after, b) {
      var i :| 0 <= i < |after| && InFrame(after[i], b);
      if i < |w.stack| {
        assert InFrame(before[i], b);
      } else if i == |w'.stack| {
        assert InFrame(before[|w.stack|], b);
      }
    }
  }

  /** The children of what was scanned wait, if its fragment had not been visited. */
  lemma ScanPushesChildren(frags: Fragments, w: Walk, cur: Frame, b: Spot)
    requires cur.sels != [] && FrameOk(cur) && StepsTo(frags, Here(cur), b)
    requires !(cur.sels[0].Spread? && cur.sels[0].fragment in w.visited)
    ensures var (w', rest) := Next(frags, w, cur); Held(w'.stack + [rest], b)
  {
    var (w', rest) := Next(frags, w, cur);
    var k := |w.stack|;
    assert InFrame((w'.stack + [rest])[k], b);
  }

  lemma ScanKeepsPlaces(frags: Fragments, w: Walk, cur: Frame)
    requires cur.sels != []
    ensures var v, v' := w.visited, Next(frags, w, cur).0.visited;
            && (forall n :: n in v ==> n in v' && v'[n] == v[n])
            && (forall n :: n in v' && n !in v ==> Here(cur) == Spot(v'[n], Spread(n)))
            && (cur.sels[0].Spread? ==> cur.sels[0].fragment in v')
  {
  }

  lemma ScanKeepsFramesOk(frags: Fragments, start: seq<Selection>, w: Walk, cur: Frame)
    requires cur.sels != [] && FramesOk(frags, start, w.visited, w.stack + [cur])
    ensures var (w', rest) := Next(frags, w, cur); FramesOk(frags, start, w'.visited, w'.stack + [rest])
    ensures Follows(frags, start, w.visited, Here(cur)) && FrameOk(cur)
  {
    var (w', rest) := Next(frags, w, cur);
    var before, after, a := w.stack + [cur], w'.stack + [rest], Here(cur);
    assert FrameOk(before[|w.stack|]) && InFrame(before[|w.stack|], a);
    assert Held(before, a);
    ScanKeepsPlaces(frags, w, cur);
    ScanFrames(frags, w, cur);
    MorePlaces(frags, start, w.visited, w'.visited, a);
    forall b | Held(after, b) ensures Follows(frags, start, w'.visited, b) {
      ScanOnlyAddsChildren(frags, w, cur, b);
      if Held(before, b) {
        MorePlaces(frags, start, w.visited, w'.visited, b);
      } else {
        FollowsOn(frags, start, w'.visited, a, b);
      }
    }
    forall i | 0 <= i < |after| ensures FrameOk(after[i]) {
      ScanOnlyAddsChildren(frags, w, cur, a);
      if i < |w.stack| {
        assert after[i] == before[i];
      }
    }
  }

  lemma ScanKeepsClosed(frags: Fragments, start: seq<Selection>, w: Walk, cur: Frame, done: set<Spot>)
    requires cur.sels != [] && FrameOk(cur) && Follows(frags, start, w.visited, Here(cur))
    requires Closed(frags, start, w.visited, w.stack + [cur], done) && VisitsAreScans(w.visited, done)
    ensures var (w', rest) := Next(frags, w, cur);
            Closed(frags, start, w'.visited, w'.stack + [rest], done + {Here(cur)})
  {
    var (w', rest) := Next(frags, w, cur);
    var before, after, a, done' := w.stack + [cur], w'.stack + [rest], Here(cur), done + {Here(cur)};
    ScanFrames(frags, w, cur);
    ScanKeepsPlaces(frags, w, cur);
    forall p | p in done' ensures Follows(frags, start, w'.visited, p) {
      MorePlaces(frags, start, w.visited, w'.visited, p);
    }
    forall p, b | p in done' && Opens(w'.visited, p) && StepsTo(frags, p, b) ensures b in done' || Held(after, b) {
      if p !in done {
        if a.sel.Spread? && a.sel.fragment in w.visited {
          assert a == Spot(w.visited[a.sel.fragment], Spread(a.sel.fragment));
        } else {
          ScanPushesChildren(frags, w, cur, b);
        }
      } else {
        assert Opens(w.visited, p);
      }
    }
  }

  lemma ScanKeepsVisits(frags: Fragments, w: Walk, cur: Frame, done: set<Spot>)
    requires cur.sels != [] && VisitsAreScans(w.visited, done)
    ensures VisitsAreScans(Next(frags, w, cur).0.visited, done + {Here(cur)})
  {
    ScanKeepsPlaces(frags, w, cur);
  }

  lemma OneMoreScanned(done: set<Spot>, a: Spot)
    ensures forall f :: SomeRootField(done + {a}, f) <==> SomeRootField(done, f) || IsRootField(a, f)
    ensures forall r :: SomeRegistry(done + {a}, r) <==> SomeRegistry(done, r) || IsRegistryOf(a, r)
  {
    forall f ensures SomeRootField(done + {a}, f) <==> SomeRootField(done, f) || IsRootField(a, f) {
      assert a in done + {a};
      if p :| p in done && IsRootField(p, f) {
        assert p in done + {a};
      }
    }
    forall r ensures SomeRegistry(done + {a}, r) <==> SomeRegistry(done, r) || IsRegistryOf(a, r) {
      assert a in done + {a};
      if p :| p in done && IsRegistryOf(p, r) {
        assert p in done + {a};
      }
    }
  }

  /** A scan adds to the report what the spot is, and nothing else. */
  lemma ScanAddsToReport(frags: Fragments, w: Walk, cur: Frame)
    requires cur.sels != [] && FrameOk(cur) && Coherent(w.info)
    ensures var info, a := Next(frags, w, cur).0.info, Here(cur);
            && (forall f :: f in info.inputs <==> f in w.info.inputs || IsRootField(a, f))
            && (forall r :: r in info.nestedRoots <==> r in w.info.nestedRoots || IsRegistryOf(a, r))
            && (info.nestedAccess <==> w.info.nestedAccess || IsRegistry(a))
            && info.rootFields == w.info.rootFields + (if a.at.AtRoot? && a.sel.Field? then {a.sel.name} else {})
  {
  }

  lemma ScanKeepsReported(frags: Fragments, before: QueryInfo, w: Walk, cur: Frame, done: set<Spot>)
    requires cur.sels != [] && FrameOk(cur) && Reported(before, w.info, done)
    ensures Reported(before, Next(frags, w, cur).0.info, done + {Here(cur)})
  {
    var info, a := Next(frags, w, cur).0.info, Here(cur);
    ScanAddsToReport(frags, w, cur);
    OneMoreScanned(done, a);
    ReportStaysCoherent(w.info, info, a);
  }

  lemma ReportStaysCoherent(before: QueryInfo, info: QueryInfo, a: Spot)
    requires Coherent(before)
    requires forall f :: f in info.inputs <==> f in before.inputs || IsRootField(a, f)
    requires forall r :: r in info.nestedRoots <==> r in before.nestedRoots || IsRegistryOf(a, r)
    requires info.nestedAccess <==> before.nestedAccess || IsRegistry(a)
    requires info.rootFields == before.rootFields + (if a.at.AtRoot? && a.sel.Field? then {a.sel.name} else {})
    ensures Coherent(info)
  {
    if a.sel.Field? {
      assert IsRootField(a, RootField(a.sel.name, a.sel.args)) <==> a.at.AtRoot?;
      assert a.sel.name == NESTED_REGISTRY_FIELD ==> Owner(a) in info.nestedRoots;
    }
    forall name ensures name in info.rootFields <==> exists f :: f in info.inputs && f.name == name {
      if name in before.rootFields {
        var f :| f in before.inputs && f.name == name;
        assert f in info.inputs;
      } else if name in info.rootFields {
        assert RootField(a.sel.name, a.sel.args) in info.inputs;
      }
    }
    if r :| r in before.nestedRoots {
      assert r in info.nestedRoots;
    }
  }

  lemma ScanKeepsInvariant(frags: Fragments, start: seq<Selection>, before: QueryInfo, w: Walk, cur: Frame, done: set<Spot>)
    requires cur.sels != [] && Invariant(frags, start, before, w, w.stack + [cur], done)
    ensures var (w', rest) := Next(frags, w, cur); Invariant(frags, start, before, w', w'.stack + [rest], done + {Here(cur)})
  {
    ScanKeepsFramesOk(frags, start, w, cur);
    ScanKeepsClosed(frags, start, w, cur, done);
    ScanKeepsVisits(frags, w, cur, done);
    ScanKeepsReported(frags, before, w, cur, done);
  }

  /** An exhausted frame can be dropped. */
  lemma DropExhausted(frags: Fragments, start: seq<Selection>, before: QueryInfo, w: Walk, cur: Frame, done: set<Spot>)
    requires cur.sels == [] && Invariant(frags, start, before, w, w.stack + [cur], done)
    ensures Invariant(frags, start, before, w, w.stack, done)
  {
    var frames := w.stack + [cur];
    forall b ensures Held(frames, b) <==> Held(w.stack, b) {
      if i :| 0 <= i < |frames| && InFrame(frames[i], b) {
        assert w.stack[i] == frames[i];
      }
      if i :| 0 <= i < |w.stack| && InFrame(w.stack[i], b) {
        assert frames[i] == w.stack[i];
      }
    }
    forall i | 0 <= i < |w.stack| ensures FrameOk(w.stack[i]) {
      assert frames[i] == w.stack[i];
    }
  }

  lemma {:induction false} ScanAllKeepsInvariant(
      frags: Fragments, start: seq<Selection>, before: QueryInfo, w: Walk, cur: Frame, done: set<Spot>) returns (done': set<Spot>)
    requires Invariant(frags, start, before, w, w.stack + [cur], done)
    ensures var w' := ScanAll(frags, w, cur.sels, cur.isRoot, cur.root); Invariant(frags, start, before, w', w'.stack, done')
    decreases |cur.sels|
  {
    if cur.sels == [] {
      DropExhausted(frags, start, before, w, cur, done);
      done' := done;
    } else {
      var (w', rest) := Next(frags, w, cur);
      ScanKeepsInvariant(frags, start, before, w, cur, done);
      done' := ScanAllKeepsInvariant(frags, start, before, w', rest, done + {Here(cur)});
    }
  }

  lemma {:induction false} ExploreKeepsInvariant(frags: Fragments, start: seq<Selection>, before: QueryInfo, w: Walk, done: set<Spot>)
    returns (done': set<Spot>)
    requires Invariant(frags, start, before, w, w.stack, done)
    ensures Invariant(frags, start, before, Explore(frags, w), [], done')
    decreases Unvisited(frags, w.visited), StackWeight(w.stack)
  {
    if w.stack == [] {
      done' := done;
    } else {
      var top, rest := w.stack[|w.stack| - 1], Popped(w);
      assert rest.stack + [top] == w.stack;
      var scanned := ScanAllKeepsInvariant(frags, start, before, rest, top, done);
      TurnLowersMeasure(frags, w);
      done' := ExploreKeepsInvariant(frags, start, before, Turn(frags, w), scanned);
    }
  }

  lemma BeginIsInvariant(frags: Fragments, start: seq<Selection>, before: QueryInfo)
    requires Coherent(before)
    ensures var w := Begin(start, before); Invariant(frags, start, before, w, w.stack, {})
  {
    var frames := [Frame(start, true, None)];
    forall b | Held(frames, b) ensures Follows(frags, start, map[], b) {
      StartIsFollowed(frags, start, map[], b.sel);
    }
    forall s | s in start ensures Held(frames, Spot(AtRoot, s)) {
      assert InFrame(frames[0], Spot(AtRoot, s));
    }
  }

  // ----- What one operation reports -----

  /** The end of a walk: what was scanned is exactly what is followed. */
  ghost predicate Complete(frags: Fragments, start: seq<Selection>, places: Places, done: set<Spot>) {
    && (forall a :: a in done <==> Follows(frags, start, places, a))
    && VisitsAreScans(places, done)
  }

  lemma {:induction false} FollowedIsScanned(frags: Fragments, start: seq<Selection>, places: Places, done: set<Spot>, chain: seq<Spot>, k: nat)
    requires Closed(frags, start, places, [], done) && k < |chain|
    requires IsChain(frags, start, chain) && forall i :: 0 <= i < |chain| - 1 ==> Opens(places, chain[i])
    ensures chain[k] in done
  {
    if k == 0 {
      assert chain[0] == Spot(AtRoot, chain[0].sel);
    } else {
      FollowedIsScanned(frags, start, places, done, chain, k - 1);
      assert StepsTo(frags, chain[k - 1], chain[k - 1 + 1]);
    }
  }

  lemma ScannedIsFollowed(frags: Fragments, start: seq<Selection>, places: Places, done: set<Spot>)
    requires Closed(frags, start, places, [], done) && VisitsAreScans(places, done)
    ensures Complete(frags, start, places, done)
  {
    forall a | Follows(frags, start, places, a) ensures a in done {
      var chain: seq<Spot> :| OpenChainTo(frags, start, places, chain, a);
      FollowedIsScanned(frags, start, places, done, chain, |chain| - 1);
    }
  }

  /** Every selection reached is scanned somewhere, in the place its fragments were expanded. */
  lemma {:induction false} ReachedIsScannedSomewhere(
      frags: Fragments, start: seq<Selection>, places: Places, done: set<Spot>, chain: seq<Spot>, k: nat) returns (place: Place)
    requires Closed(frags, start, places, [], done) && VisitsAreScans(places, done)
    requires IsChain(frags, start, chain) && k < |chain|
    ensures Spot(place, chain[k].sel) in done
  {
    if k == 0 {
      place := AtRoot;
    } else {
      var before := ReachedIsScannedSomewhere(frags, start, places, done, chain, k - 1);
      var sel := chain[k - 1].sel;
      var a := if sel.Spread? then Spot(places[sel.fragment], sel) else Spot(before, sel);
      assert StepsTo(frags, chain[k - 1], chain[k - 1 + 1]);
      assert a in done && Opens(places, a) && StepsTo(frags, a, Spot(Inside(a), chain[k].sel));
      place := Inside(a);
    }
  }

  /** Where the traversal of an operation first meets each fragment. */
  function FirstPlaces(frags: Fragments, start: seq<Selection>): Places {
    Explore(frags, Begin(start, EMPTY_INFO)).visited
  }

  /** The route of a walk does not depend on its report. */
  lemma {:induction false} ScanAllIgnoresInfo(frags: Fragments, v: Walk, w: Walk, sels: seq<Selection>, isRoot: bool, root: Option<string>)
    requires v == w.(info := v.info)
    ensures ScanAll(frags, v, sels, isRoot, root) == ScanAll(frags, w, sels, isRoot, root).(info := ScanAll(frags, v, sels, isRoot, root).info)
    decreases |sels|
  {
    if sels != [] {
      var (v', root') := Scan(frags, v, sels[0], isRoot, root);
      var w' := Scan(frags, w, sels[0], isRoot, root).0;
      ScanAllIgnoresInfo(frags, v', w', sels[1..], isRoot, root');
    }
  }

  lemma {:induction false} ExploreIgnoresInfo(frags: Fragments, v: Walk, w: Walk)
    requires v == w.(info := v.info)
    ensures Explore(frags, v).visited == Explore(frags, w).visited
    decreases Unvisited(frags, w.visited), StackWeight(w.stack)
  {
    if w.stack != [] {
      var top := w.stack[|w.stack| - 1];
      ScanAllIgnoresInfo(frags, Popped(v), Popped(w), top.sels, top.isRoot, top.root);
      TurnLowersMeasure(frags, w);
      ExploreIgnoresInfo(frags, Turn(frags, v), Turn(frags, w));
    }
  }

  /** The root field is reached by a chain that expands fragments where they are first met. */
  ghost predicate FollowedRootField(frags: Fragments, start: seq<Selection>, f: RootField) {
    exists a :: IsRootField(a, f) && Follows(frags, start, FirstPlaces(frags, start), a)
  }

  /** So is a registry field belonging to this root field. */
  ghost predicate FollowedRegistry(frags: Fragments, start: seq<Selection>, root: string) {
    exists a :: IsRegistryOf(a, root) && Follows(frags, start, FirstPlaces(frags, start), a)
  }

  /** Some chain reaches a registry field. */
  ghost predicate ReachesRegistry(frags: Fragments, start: seq<Selection>) {
    exists a :: Reaches(frags, start, a) && IsRegistry(a)
  }

  /**
   * What one operation adds to the report, exactly: the root fields, and the root fields with registry
   * access, that chains reach expanding each fragment only where it is first met; and registry access itself
   * if any chain at all reaches it.
   */
  lemma OperationReport(frags: Fragments, start: seq<Selection>, before: QueryInfo)
    requires Coherent(before)
    ensures var info := Explore(frags, Begin(start, before)).info;
            && Coherent(info)
            && (forall f :: f in info.inputs <==> f in before.inputs || FollowedRootField(frags, start, f))
            && (forall r :: r in info.nestedRoots <==> r in before.nestedRoots || FollowedRegistry(frags, start, r))
            && (info.nestedAccess <==> before.nestedAccess || ReachesRegistry(frags, start))
  {
    var w := Explore(frags, Begin(start, before));
    BeginIsInvariant(frags, start, before);
    var done := ExploreKeepsInvariant(frags, start, before, Begin(start, before), {});
    ExploreIgnoresInfo(frags, Begin(start, before), Begin(start, EMPTY_INFO));
    ScannedIsFollowed(frags, start, w.visited, done);
    RegistryAccessIsExact(frags, start, before, w, done);
  }

  lemma RegistryAccessIsExact(frags: Fragments, start: seq<Selection>, before: QueryInfo, w: Walk, done: set<Spot>)
    requires Coherent(before) && Invariant(frags, start, before, w, [], done)
    ensures w.info.nestedAccess <==> before.nestedAccess || ReachesRegistry(frags, start)
  {
    if before.nestedAccess {
      var r :| r in before.nestedRoots;
      assert r in w.info.nestedRoots;
    }
    if ReachesRegistry(frags, start) {
      var a :| Reaches(frags, start, a) && IsRegistry(a);
      var chain: seq<Spot> :| ChainTo(frags, start, chain, a);
      var place := ReachedIsScannedSomewhere(frags, start, w.visited, done, chain, |chain| - 1);
      assert IsRegistryOf(Spot(place, a.sel), Owner(Spot(place, a.sel)));
      assert SomeRegistry(done, Owner(Spot(place, a.sel)));
    }
    if w.info.nestedAccess && !before.nestedAccess {
      var r :| r in w.info.nestedRoots;
      var a :| a in done && IsRegistryOf(a, r);
      FollowedIsReached(frags, start, w.visited, a);
    }
  }

  // ----- The document -----

  /** The fragment table: a later definition of a name replaces an earlier one. */
  function FragmentTable(defs: seq<Definition>): Fragments {
    if defs == [] then map[]
    else
      var front := FragmentTable(defs[..|defs| - 1]);
      var last := defs[|defs| - 1];
      if last.Fragment? then front[last.name := last.selections] else front
  }

  lemma {:induction false} TableDefines(defs: seq<Definition>)
    ensures Defines(defs, FragmentTable(defs))
  {
    if defs != [] {
      var front, last := defs[..|defs| - 1], defs[|defs| - 1];
      assert front + [last] == defs;
      TableDefines(front);
      OneMoreDefines(front, last, FragmentTable(front), FragmentTable(defs));
    }
  }

  lemma OneMoreDefines(front: seq<Definition>, last: Definition, frags: Fragments, frags': Fragments)
    requires Defines(front, frags)
    requires frags' == if last.Fragment? then frags[last.name := last.selections] else frags
    ensures Defines(front + [last], frags')
  {
    var defs := front + [last];
    forall name ensures name in frags' <==> exists i :: 0 <= i < |defs| && defs[i].Fragment? && defs[i].name == name {
      if i :| 0 <= i < |front| && front[i].Fragment? && front[i].name == name {
        assert defs[i] == front[i];
      }
      if last.Fragment? && last.name == name {
        assert defs[|front|] == last;
      }
    }
    forall name, i: nat | name in frags' && DefinesLast(defs, i, name) ensures frags'[name] == defs[i].selections {
      if i < |front| {
        assert defs[|front|] == last;
        StillDefinesLast(front, last, i, name);
      }
    }
  }

  lemma StillDefinesLast(front: seq<Definition>, last: Definition, i: nat, name: string)
    requires DefinesLast(front + [last], i, name) && i < |front|
    ensures DefinesLast(front, i, name)
  {
    forall j | i < j < |front| && front[j].Fragment? ensures front[j].name != name {
      assert (front + [last])[j] == front[j];
    }
  }

  ghost predicate IsOperation(defs: seq<Definition>, start: seq<Selection>) {
    Operation(start) in defs
  }

  ghost predicate SomeOperationReaches(defs: seq<Definition>, frags: Fragments) {
    exists start :: IsOperation(defs, start) && ReachesRegistry(frags, start)
  }

  ghost predicate SomeOperationReports(defs: seq<Definition>, frags: Fragments, f: RootField) {
    exists start :: IsOperation(defs, start) && FollowedRootField(frags, start, f)
  }

  ghost predicate SomeOperationOwns(defs: seq<Definition>, frags: Fragments, root: string) {
    exists start :: IsOperation(defs, start) && FollowedRegistry(frags, start, root)
  }

  /** The report is exact for these operations. */
  ghost predicate Exact(defs: seq<Definition>, frags: Fragments, info: QueryInfo) {
    && Coherent(info)
    && (info.nestedAccess <==> SomeOperationReaches(defs, frags))
    && (forall f :: f in info.inputs <==> SomeOperationReports(defs, frags, f))
    && (forall r :: r in info.nestedRoots <==> SomeOperationOwns(defs, frags, r))
  }

  lemma OneMoreDefinition(front: seq<Definition>, last: Definition, frags: Fragments)
    ensures forall start :: IsOperation(front + [last], start) <==> IsOperation(front, start) || last == Operation(start)
  {
  }

  lemma OperationKeepsExact(front: seq<Definition>, start: seq<Selection>, frags: Fragments, before: QueryInfo)
    requires Exact(front, frags, before)
    ensures Exact(front + [Operation(start)], frags, Explore(frags, Begin(start, before)).info)
  {
    var all, info := front + [Operation(start)], Explore(frags, Begin(start, before)).info;
    OperationReport(frags, start, before);
    OneMoreDefinition(front, Operation(start), frags);
    OneMoreReaches(front, start, frags);
    forall f ensures SomeOperationReports(all, frags, f) <==> SomeOperationReports(front, frags, f) || FollowedRootField(frags, start, f) {
      OneMoreReports(front, start, frags, f);
    }
    forall r ensures SomeOperationOwns(all, frags, r) <==> SomeOperationOwns(front, frags, r) || FollowedRegistry(frags, start, r) {
      OneMoreOwns(front, start, frags, r);
    }
  }

  lemma OneMoreReaches(front: seq<Definition>, start: seq<Selection>, frags: Fragments)
    ensures SomeOperationReaches(front + [Operation(start)], frags) <==> SomeOperationReaches(front, frags) || ReachesRegistry(frags, start)
  {
    OneMoreDefinition(front, Operation(start), frags);
  }

  lemma OneMoreReports(front: seq<Definition>, start: seq<Selection>, frags: Fragments, f: RootField)
    ensures SomeOperationReports(front + [Operation(start)], frags, f) <==> SomeOperationReports(front, frags, f) || FollowedRootField(frags, start, f)
  {
    OneMoreDefinition(front, Operation(start), frags);
  }

  lemma OneMoreOwns(front: seq<Definition>, start: seq<Selection>, frags: Fragments, r: string)
    ensures SomeOperationOwns(front + [Operation(start)], frags, r) <==> SomeOperationOwns(front, frags, r) || FollowedRegistry(frags, start, r)
  {
    OneMoreDefinition(front, Operation(start), frags);
  }

  lemma FragmentKeepsExact(front: seq<Definition>, last: Definition, frags: Fragments, info: QueryInfo)
    requires Exact(front, frags, info) && last.Fragment?
    ensures Exact(front + [last], frags, info)
  {
    OneMoreDefinition(front, last, frags);
    assert forall start :: IsOperation(front + [last], start) <==> IsOperation(front, start);
  }

  /**
   * `extract_graphql_query_info` on a parsed document. Registry access is reported if and only if some
   * operation reaches a registry field by any chain; a root field, and a root field with registry access, if
   * and only if some operation reaches it by a chain that expands each fragment where it is first met.
   */
  method ExtractQueryInfo(defs: seq<Definition>) returns (info: QueryInfo)
    ensures exists frags :: Defines(defs, frags) && Exact(defs, frags, info)
  {
    var frags: Fragments := map[];
    for i := 0 to |defs|
      invariant frags == FragmentTable(defs[..i])
    {
      assert defs[..i + 1][..i] == defs[..i];
      if defs[i].Fragment? {
        frags := frags[defs[i].name := defs[i].selections];
      }
    }
    assert defs[..|defs|] == defs;
    TableDefines(defs);
    info := EMPTY_INFO;
    for i := 0 to |defs|
      invariant Exact(defs[..i], frags, info)
    {
      assert defs[..i + 1] == defs[..i] + [defs[i]];
      if defs[i].Operation? {
        OperationKeepsExact(defs[..i], defs[i].selections, frags, info);
        info := TraverseOperation(frags, defs[i].selections, info);
      } else {
        FragmentKeepsExact(defs[..i], defs[i], frags, info);
      }
    }
  }

  // ----- Against all chains -----

  /** The fragments a chain expands are spread nowhere but where it expands them. */
  ghost predicate SpreadsInOnePlace(frags: Fragments, start: seq<Selection>, chain: seq<Spot>) {
    forall i :: 0 <= i < |chain| - 1 && chain[i].sel.Spread? ==> SpreadOnlyAt(frags, start, chain[i].sel.fragment, chain[i].at)
  }

  /** Such a chain is followed. */
  lemma {:induction false} OnePlaceIsFollowed(frags: Fragments, start: seq<Selection>, chain: seq<Spot>, k: nat)
    requires IsChain(frags, start, chain) && SpreadsInOnePlace(frags, start, chain) && k < |chain|
    ensures Follows(frags, start, FirstPlaces(frags, start), chain[k])
  {
    var places := FirstPlaces(frags, start);
    if k == 0 {
      StartIsFollowed(frags, start, places, chain[0].sel);
    } else {
      var a := chain[k - 1];
      OnePlaceIsFollowed(frags, start, chain, k - 1);
      if a.sel.Spread? {
        FirstPlaceIsSpread(frags, start, a);
      }
      assert StepsTo(frags, chain[k - 1], chain[k - 1 + 1]);
      FollowsOn(frags, start, places, a, chain[k]);
    }
  }

  /** A followed spread has a first place, and is reached there. */
  lemma FirstPlaceIsSpread(frags: Fragments, start: seq<Selection>, a: Spot)
    requires a.sel.Spread? && Follows(frags, start, FirstPlaces(frags, start), a)
    ensures var places := FirstPlaces(frags, start);
            a.sel.fragment in places && Reaches(frags, start, Spot(places[a.sel.fragment], a.sel))
  {
    var w := Explore(frags, Begin(start, EMPTY_INFO));
    BeginIsInvariant(frags, start, EMPTY_INFO);
    var done := ExploreKeepsInvariant(frags, start, EMPTY_INFO, Begin(start, EMPTY_INFO), {});
    ScannedIsFollowed(frags, start, w.visited, done);
    FollowedIsReached(frags, start, w.visited, Spot(w.visited[a.sel.fragment], a.sel));
  }

  lemma {:induction false} RootChainStaysAtRoot(frags: Fragments, start: seq<Selection>, chain: seq<Spot>, k: nat)
    requires IsChain(frags, start, chain) && chain[|chain| - 1].at.AtRoot? && k < |chain|
    ensures chain[k].at.AtRoot?
    decreases |chain| - k
  {
    if k < |chain| - 1 {
      RootChainStaysAtRoot(frags, start, chain, k + 1);
      assert StepsTo(frags, chain[k], chain[k + 1]);
    }
  }

  lemma ChainPrefix(frags: Fragments, start: seq<Selection>, chain: seq<Spot>, k: nat)
    requires IsChain(frags, start, chain) && k < |chain|
    ensures Reaches(frags, start, chain[k])
  {
    assert ChainTo(frags, start, chain[..k + 1], chain[k]);
  }

  /** With no fragment both at root level and below a field, every root field reached is reported. */
  lemma DisjointReportsRootFields(frags: Fragments, start: seq<Selection>, f: RootField)
    requires RootAndNestedFragmentsDisjoint(frags, start)
    ensures FollowedRootField(frags, start, f) <==> exists a :: IsRootField(a, f) && Reaches(frags, start, a)
  {
    if a :| IsRootField(a, f) && Reaches(frags, start, a) {
      var chain: seq<Spot> :| ChainTo(frags, start, chain, a);
      forall i | 0 <= i < |chain| - 1 && chain[i].sel.Spread? ensures SpreadOnlyAt(frags, start, chain[i].sel.fragment, chain[i].at) {
        RootChainStaysAtRoot(frags, start, chain, i);
        ChainPrefix(frags, start, chain, i);
        assert chain[i] == Spot(AtRoot, Spread(chain[i].sel.fragment));
      }
      OnePlaceIsFollowed(frags, start, chain, |chain| - 1);
    }
    if a :| IsRootField(a, f) && Follows(frags, start, FirstPlaces(frags, start), a) {
      FollowedIsReached(frags, start, FirstPlaces(frags, start), a);
    }
  }

  /** With every fragment spread in one place, every root field with registry access is reported. */
  lemma OnePlaceReportsRegistry(frags: Fragments, start: seq<Selection>, root: string)
    requires FragmentsHaveOnePlace(frags, start)
    ensures FollowedRegistry(frags, start, root) <==> exists a :: IsRegistryOf(a, root) && Reaches(frags, start, a)
  {
    if a :| IsRegistryOf(a, root) && Reaches(frags, start, a) {
      var chain: seq<Spot> :| ChainTo(frags, start, chain, a);
      forall i | 0 <= i < |chain| - 1 && chain[i].sel.Spread? ensures SpreadOnlyAt(frags, start, chain[i].sel.fragment, chain[i].at) {
        ChainPrefix(frags, start, chain, i);
        assert chain[i] == Spot(chain[i].at, Spread(chain[i].sel.fragment));
      }
      OnePlaceIsFollowed(frags, start, chain, |chain| - 1);
    }
    if a :| IsRegistryOf(a, root) && Follows(frags, start, FirstPlaces(frags, start), a) {
      FollowedIsReached(frags, start, FirstPlaces(frags, start), a);
    }
  }

  /** Some fragment on the chain is expanded elsewhere than where the traversal first meets it. */
  ghost predicate Misplaced(frags: Fragments, start: seq<Selection>, chain: seq<Spot>) {
    exists i :: 0 <= i < |chain| - 1 && !Opens(FirstPlaces(frags, start), chain[i])
  }

  /** What the traversal of one operation alone reports. */
  function ReportOf(frags: Fragments, start: seq<Selection>): QueryInfo {
    Explore(frags, Begin(start, EMPTY_INFO)).info
  }

  /** A root field is missed exactly if every chain to it expands a fragment elsewhere than where it is first met. */
  lemma MissedRootFieldIff(frags: Fragments, start: seq<Selection>, f: RootField)
    ensures f !in ReportOf(frags, start).inputs <==>
      forall a, chain :: IsRootField(a, f) && ChainTo(frags, start, chain, a) ==> Misplaced(frags, start, chain)
  {
    OperationReport(frags, start, EMPTY_INFO);
    forall a, chain: seq<Spot> | ChainTo(frags, start, chain, a)
      ensures OpenChainTo(frags, start, FirstPlaces(frags, start), chain, a) <==> !Misplaced(frags, start, chain)
    {
    }
  }

  /** The same for the registry access of a root field. */
  lemma MissedRegistryIff(frags: Fragments, start: seq<Selection>, root: string)
    ensures root !in ReportOf(frags, start).nestedRoots <==>
      forall a, chain :: IsRegistryOf(a, root) && ChainTo(frags, start, chain, a) ==> Misplaced(frags, start, chain)
  {
    OperationReport(frags, start, EMPTY_INFO);
    forall a, chain: seq<Spot> | ChainTo(frags, start, chain, a)
      ensures OpenChainTo(frags, start, FirstPlaces(frags, start), chain, a) <==> !Misplaced(frags, start, chain)
    {
    }
  }

  // ----- Two documents where fragments are shared -----

  lemma ScanOne(frags: Fragments, w: Walk, sel: Selection, isRoot: bool, root: Option<string>)
    ensures ScanAll(frags, w, [sel], isRoot, root) == Scan(frags, w, sel, isRoot, root).0
  {
    assert [sel][1..] == [];
  }

  lemma ScanTwo(frags: Fragments, w: Walk, a: Selection, b: Selection, root: Option<string>)
    ensures var (w', root') := Scan(frags, w, a, true, root); ScanAll(frags, w, [a, b], true, root) == Scan(frags, w', b, true, root').0
  {
    var (w', root') := Scan(frags, w, a, true, root);
    assert [a, b][1..] == [b];
    ScanOne(frags, w', b, true, root');
  }

  /** Exploring a stack whose top holds one selection is scanning it first. */
  lemma ExploreTop(frags: Fragments, below: seq<Frame>, sel: Selection, isRoot: bool, root: Option<string>, visited: Places, info: QueryInfo, next: Walk)
    requires Scan(frags, Walk(below, visited, info), sel, isRoot, root).0 == next
    ensures Explore(frags, Walk(below + [Frame([sel], isRoot, root)], visited, info)) == Explore(frags, next)
  {
    var w := Walk(below + [Frame([sel], isRoot, root)], visited, info);
    assert Popped(w).stack == below;
    ScanOne(frags, Walk(below, visited, info), sel, isRoot, root);
  }

  lemma BeginWithTwo(frags: Fragments, a: Selection, b: Selection, first: Walk, root: Option<string>, next: Walk)
    requires Scan(frags, Walk([], map[], EMPTY_INFO), a, true, None) == (first, root)
    requires Scan(frags, first, b, true, root).0 == next
    ensures Explore(frags, Begin([a, b], EMPTY_INFO)) == Explore(frags, next)
  {
    assert Popped(Begin([a, b], EMPTY_INFO)) == Walk([], map[], EMPTY_INFO);
    ScanTwo(frags, Walk([], map[], EMPTY_INFO), a, b, None);
  }

  /** Scanning a root field without registry access that holds one selection. */
  lemma ScanRootField(frags: Fragments, w: Walk, name: string, sel: Selection, root: Option<string>, info: QueryInfo)
    requires |name| == 1
    requires info == w.info.(rootFields := w.info.rootFields + {name}, inputs := w.info.inputs + [RootField(name, map[])])
    ensures Scan(frags, w, Field(name, map[], [sel]), true, root) ==
      (Walk(w.stack + [Frame([sel], false, Some(name))], w.visited, info), Some(name))
  {
    assert |NESTED_REGISTRY_FIELD| == 13;
  }

  /** Scanning the first spread of a fragment that holds one selection. */
  lemma ScanFirstSpread(frags: Fragments, w: Walk, fragment: string, sel: Selection, name: string)
    requires fragment !in w.visited && fragment in frags && frags[fragment] == [sel]
    ensures Scan(frags, w, Spread(fragment), false, Some(name)).0 ==
      Walk(w.stack + [Frame([sel], false, Some(name))], w.visited[fragment := Below(name)], w.info)
  {
  }

  /** The document where a root field is hidden: a fragment at root level, met first below the field `a`. */
  function HidingRootField(): (Fragments, seq<Selection>) {
    (map["F" := [Field("h", map[], [])]], [Inline([Spread("F")]), Field("a", map[], [Spread("F")])])
  }

  lemma ExploreHidingRootField(frags: Fragments, hidden: Selection, info: QueryInfo)
    requires frags == map["F" := [hidden]] && hidden == Field("h", map[], []) && info == QueryInfo({"a"}, false, {}, [RootField("a", map[])])
    ensures Explore(frags, Begin([Inline([Spread("F")]), Field("a", map[], [Spread("F")])], EMPTY_INFO)).info == info
  {
    var root := Frame([Spread("F")], true, None);
    var none: seq<Frame>, visited: Places := [], map["F" := Below("a")];
    assert none + [root] == [root];
    assert EMPTY_INFO.inputs + [RootField("a", map[])] == info.inputs && EMPTY_INFO.rootFields + {"a"} == info.rootFields;
    ScanRootField(frags, Walk([root], map[], EMPTY_INFO), "a", Spread("F"), None, info);
    BeginWithTwo(frags, Inline([Spread("F")]), Field("a", map[], [Spread("F")]), Walk([root], map[], EMPTY_INFO), None,
                 Walk([root] + [Frame([Spread("F")], false, Some("a"))], map[], info));
    ScanFirstSpread(frags, Walk([root], map[], info), "F", hidden, "a");
    ExploreTop(frags, [root], Spread("F"), false, Some("a"), map[], info, Walk([root] + [Frame([hidden], false, Some("a"))], visited, info));
    assert |NESTED_REGISTRY_FIELD| == 13;
    ExploreTop(frags, [root], hidden, false, Some("a"), visited, info, Walk([root], visited, info));
    ExploreTop(frags, [], Spread("F"), true, None, visited, info, Walk([], visited, info));
  }

  /** A root field can be missed. */
  lemma SharedFragmentCanHideRootField()
    ensures var (frags, start) := HidingRootField();
            Reaches(frags, start, Spot(AtRoot, Field("h", map[], []))) && RootField("h", map[]) !in ReportOf(frags, start).inputs
  {
    var (frags, start) := HidingRootField();
    var hidden := Field("h", map[], []);
    assert ChainTo(frags, start, [Spot(AtRoot, start[0]), Spot(AtRoot, Spread("F")), Spot(AtRoot, hidden)], Spot(AtRoot, hidden));
    ExploreHidingRootField(frags, hidden, QueryInfo({"a"}, false, {}, [RootField("a", map[])]));
    assert "h"[0] != "a"[0];
  }

  /** The document where registry access is hidden: `g` and `s` share the fragment, and it is met first below `s`. */
  function HidingRegistry(): (Fragments, seq<Selection>) {
    (map["F" := [Field(NESTED_REGISTRY_FIELD, map[], [])]], [Field("g", map[], [Spread("F")]), Field("s", map[], [Spread("F")])])
  }

  lemma ExploreHidingRegistry(frags: Fragments, registry: Selection, first: QueryInfo, info: QueryInfo, found: QueryInfo)
    requires frags == map["F" := [registry]] && registry == Field(NESTED_REGISTRY_FIELD, map[], [])
    requires first == QueryInfo({"g"}, false, {}, [RootField("g", map[])])
    requires info == first.(rootFields := first.rootFields + {"s"}, inputs := first.inputs + [RootField("s", map[])])
    requires found == info.(nestedAccess := true, nestedRoots := {"s"})
    ensures Explore(frags, Begin([Field("g", map[], [Spread("F")]), Field("s", map[], [Spread("F")])], EMPTY_INFO)).info == found
  {
    var inG := Frame([Spread("F")], false, Some("g"));
    var none: seq<Frame>, visited: Places := [], map["F" := Below("s")];
    assert none + [inG] == [inG];
    assert EMPTY_INFO.inputs + [RootField("g", map[])] == first.inputs && EMPTY_INFO.rootFields + {"g"} == first.rootFields;
    ScanRootField(frags, Walk([], map[], EMPTY_INFO), "g", Spread("F"), None, first);
    ScanRootField(frags, Walk([inG], map[], first), "s", Spread("F"), Some("g"), info);
    BeginWithTwo(frags, Field("g", map[], [Spread("F")]), Field("s", map[], [Spread("F")]), Walk([inG], map[], first), Some("g"),
                 Walk([inG] + [Frame([Spread("F")], false, Some("s"))], map[], info));
    ScanFirstSpread(frags, Walk([inG], map[], info), "F", registry, "s");
    ExploreTop(frags, [inG], Spread("F"), false, Some("s"), map[], info, Walk([inG] + [Frame([registry], false, Some("s"))], visited, info));
    assert info.nestedRoots + {"s"} == {"s"};
    ExploreTop(frags, [inG], registry, false, Some("s"), visited, info, Walk([inG], visited, found));
    ExploreTop(frags, [], Spread("F"), false, Some("g"), visited, found, Walk([], visited, found));
  }

  /** The registry access of a root field can be missed, when another root field shares the fragment. */
  lemma SharedFragmentCanHideRegistryOwner()
    ensures var (frags, start) := HidingRegistry();
            && Reaches(frags, start, Spot(Below("g"), Field(NESTED_REGISTRY_FIELD, map[], [])))
            && ReportOf(frags, start).nestedRoots == {"s"} && ReportOf(frags, start).rootFields == {"g", "s"}
  {
    var (frags, start) := HidingRegistry();
    var registry := Field(NESTED_REGISTRY_FIELD, map[], []);
    assert ChainTo(frags, start, [Spot(AtRoot, start[0]), Spot(Below("g"), Spread("F")), Spot(Below("g"), registry)], Spot(Below("g"), registry));
    var first := QueryInfo({"g"}, false, {}, [RootField("g", map[])]);
    var info := first.(rootFields := first.rootFields + {"s"}, inputs := first.inputs + [RootField("s", map[])]);
    ExploreHidingRegistry(frags, registry, first, info, info.(nestedAccess := true, nestedRoots := {"s"}));
  }
}
