/**
 * Every run of a list/watch cache against the API server: the server commits versions while the watch
 * thread lists, opens a stream, applies events, loses the stream and relists. Only the watch thread writes;
 * two writers are the subject of module ReloadRace, and request threads that of module LiveLookups.
 */
module Replication {
  import opened Wrappers
  import opened ClusterHistory

  /** The watch thread: between requests, waiting for a list evaluated at a version, or reading a stream. */
  datatype Mode = Idle | Listing(at: nat) | Streaming(pos: nat)

  /**
   * `basis` is the version the snapshot shows, if it has not been cleared; `newest` is the newest version
   * it ever showed. Neither is stored by the program.
   */
  datatype State<V, I> = State(
    history: seq<Change<V>>,
    snapshot: Snapshot<I>,
    mode: Mode,
    basis: Option<nat>,
    newest: nat)

  datatype Event<V> =
    | Commit(change: Change<V>)
    | SendList
    | ListArrives
    | ListFails
    | ListDenied                                        // the snapshot is cleared
    | OpenStream
    | Deliver(version: nat, asAdded: bool, last: V)     // the event of one version
    | DeliverBookmark(version: nat, filler: V)
    | DeliverBroken(ev: WatchEvent<V>)                  // an ERROR or an event of unknown type
    | StreamEnds
    | StreamDenied                                      // the snapshot is cleared

  predicate Enabled<V(==), I>(s: State<V, I>, ev: Event<V>) {
    match ev
    case Commit(c) => !c.Unrelated? ==> c.name != ""
    case SendList => s.mode.Idle? && s.snapshot.cursor.None?
    case ListArrives => s.mode.Listing? && s.mode.at <= |s.history|
    case ListFails => s.mode.Listing?
    case ListDenied => s.mode.Listing?
    case OpenStream => s.mode.Idle? && s.snapshot.cursor.Some?
    case Deliver(v, _, _) =>
      s.mode.Streaming? && s.mode.pos < v <= |s.history| && !s.history[v - 1].Unrelated?
      && forall i :: s.mode.pos <= i < v - 1 ==> s.history[i].Unrelated?
    case DeliverBookmark(v, _) =>
      s.mode.Streaming? && s.mode.pos <= v <= |s.history| && forall i :: s.mode.pos <= i < v ==> s.history[i].Unrelated?
    case DeliverBroken(ev) => s.mode.Streaming? && (ev.kind == ERROR || (ev.kind == OTHER && Named(ev.payload)))
    case StreamEnds => s.mode.Streaming?
    case StreamDenied => s.mode.Streaming?
  }

  function Cleared<V, I>(s: State<V, I>): State<V, I> {
    s.(mode := Idle, snapshot := Snapshot(map[], None), basis := None)
  }

  /** The stream has brought the watch thread from its position to version `v` with one event. */
  function Advanced<V, I>(s: State<V, I>, v: nat, ev: WatchEvent<V>, extract: Extract<V, I>): State<V, I> {
    s.(mode := Streaming(v), snapshot := Handle(s.snapshot, ev, extract), basis := Some(v), newest := v)
  }

  function Step<V(==), I>(s: State<V, I>, ev: Event<V>, extract: Extract<V, I>): State<V, I>
    requires Enabled(s, ev)
  {
    match ev
    case Commit(c) => s.(history := s.history + [c])
    case SendList => s.(mode := Listing(|s.history|))
    case ListArrives =>
      s.(mode := Idle, snapshot := Snapshot(View(StateAt(s.history, s.mode.at), extract), Some(s.mode.at)),
         basis := Some(s.mode.at), newest := s.mode.at)
    case ListFails => s.(mode := Idle)
    case ListDenied => Cleared(s)
    case OpenStream => s.(mode := Streaming(s.snapshot.cursor.value))
    case Deliver(v, asAdded, last) => Advanced(s, v, EventFor(s.history[v - 1], v, asAdded, last), extract)
    case DeliverBookmark(v, filler) => Advanced(s, v, WatchEvent(BOOKMARK, Some(Object(None, Some(v), filler))), extract)
    case DeliverBroken(broken) => s.(mode := Idle, snapshot := Handle(s.snapshot, broken, extract).(cursor := None))
    case StreamEnds => s.(mode := Idle, snapshot := s.snapshot.(cursor := None))
    case StreamDenied => Cleared(s)
  }

  function Start<V, I>(): State<V, I> {
    State([], Snapshot(map[], None), Idle, None, 0)
  }

  function After<V(==), I>(history: seq<Event<V>>, extract: Extract<V, I>): (r: Option<State<V, I>>) {
    if history == [] then Some(Start())
    else
      var before := After(history[..|history| - 1], extract);
      var last := history[|history| - 1];
      if before.Some? && Enabled(before.value, last) then Some(Step(before.value, last, extract)) else None
  }

  /**
   * The snapshot is the filtered cluster state at `basis`, or cleared; a cursor is that same version, and so
   * is the position of an open stream.
   */
  ghost predicate Exact<V, I>(s: State<V, I>, extract: Extract<V, I>) {
    && (s.basis.Some? ==> s.basis.value <= |s.history| && s.snapshot.items == View(StateAt(s.history, s.basis.value), extract))
    && (s.basis.None? ==> s.snapshot.items == map[])
    && (s.snapshot.cursor.Some? ==> s.snapshot.cursor == s.basis)
    && (s.mode.Streaming? ==> s.snapshot.cursor == Some(s.mode.pos))
    && (forall i :: 0 <= i < |s.history| && !s.history[i].Unrelated? ==> s.history[i].name != "")
  }

  /** Lists and snapshots never fall behind the newest version already shown. */
  ghost predicate Fresh<V, I>(s: State<V, I>) {
    && s.newest <= |s.history|
    && (s.basis.Some? ==> s.basis.value == s.newest)
    && (s.mode.Listing? ==> s.newest <= s.mode.at <= |s.history|)
  }

  lemma DeliverKeepsExact<V, I>(s: State<V, I>, v: nat, asAdded: bool, last: V, extract: Extract<V, I>)
    requires Exact(s, extract) && Enabled(s, Deliver(v, asAdded, last))
    ensures Exact(Step(s, Deliver(v, asAdded, last), extract), extract)
  {
    QuietKeepsState(s.history, s.mode.pos, v - 1);
    HandleAdvances(s.history, v, asAdded, last, s.snapshot.cursor, extract);
  }

  lemma StepKeepsExact<V, I>(s: State<V, I>, ev: Event<V>, extract: Extract<V, I>)
    requires Exact(s, extract) && Enabled(s, ev)
    ensures Exact(Step(s, ev, extract), extract)
  {
    match ev
    case Commit(c) =>
      if s.basis.Some? { PastIsFixed(s.history, [c], s.basis.value); }
    case Deliver(v, asAdded, last) => DeliverKeepsExact(s, v, asAdded, last, extract);
    case DeliverBookmark(v, _) => QuietKeepsState(s.history, s.mode.pos, v);
    case _ =>
  }

  lemma StepKeepsFresh<V, I>(s: State<V, I>, ev: Event<V>, extract: Extract<V, I>)
    requires Exact(s, extract) && Fresh(s) && Enabled(s, ev)
    ensures Fresh(Step(s, ev, extract)) && s.newest <= Step(s, ev, extract).newest
  {
  }

  /** A list that nothing comes between shows the state of now, and the stream opened after it starts there. */
  lemma UndisturbedListShowsNow<V, I>(s: State<V, I>, extract: Extract<V, I>)
    requires Enabled(s, SendList)
    ensures var sent := Step(s, SendList, extract);
            && Enabled(sent, ListArrives)
            && var listed := Step(sent, ListArrives, extract);
               && listed.history == s.history && listed.snapshot == Snapshot(View(StateAt(s.history, |s.history|), extract), Some(|s.history|))
               && Enabled(listed, OpenStream) && Step(listed, OpenStream, extract).mode == Streaming(|s.history|)
               && Step(listed, OpenStream, extract).snapshot == listed.snapshot
  {
  }

  lemma OneMoreEvent<V, I>(history: seq<Event<V>>, ev: Event<V>, extract: Extract<V, I>)
    requires After(history, extract).Some? && Enabled(After(history, extract).value, ev)
    ensures After(history + [ev], extract) == Some(Step(After(history, extract).value, ev, extract))
  {
    assert (history + [ev])[..|history|] == history;
  }

  /** So there is a run that shows an object, read as it is. */
  lemma SomeRunShows<V, I>(name: string, value: V, extract: Extract<V, I>)
    requires name != ""
    ensures exists history :: After(history, extract).Some?
              && After(history, extract).value.snapshot == Snapshot(View(map[name := value], extract), Some(1))
  {
    var c := Put(name, value);
    OneMoreEvent([], Commit(c), extract);
    OneMoreEvent([] + [Commit(c)], SendList, extract);
    OneMoreEvent([] + [Commit(c)] + [SendList], ListArrives, extract);
    UndisturbedListShowsNow(After([] + [Commit(c)], extract).value, extract);
    assert StateAt([c], 1) == map[name := value];
    assert After([] + [Commit(c)] + [SendList] + [ListArrives], extract).Some?;
  }

  /** The events of all versions from this one on, one after the other. */
  function CaughtUp<V(==), I>(s: State<V, I>, v: nat, filler: V, extract: Extract<V, I>): State<V, I>
    requires v > 0
    decreases |s.history| + 1 - v
  {
    if v > |s.history| then s
    else if s.history[v - 1].Unrelated? then CaughtUp(s, v + 1, filler, extract)
    else if !Enabled(s, Deliver(v, false, filler)) then s
    else CaughtUp(Step(s, Deliver(v, false, filler), extract), v + 1, filler, extract)
  }

  /** An open stream that delivers every event brings the snapshot to the state of now. */
  lemma {:induction false} StreamCatchesUp<V, I>(s: State<V, I>, v: nat, filler: V, extract: Extract<V, I>)
    requires Exact(s, extract) && s.mode.Streaming? && s.mode.pos < v <= |s.history| + 1 && QuietBetween(s.history, s.mode.pos, v - 1)
    ensures var end := CaughtUp(s, v, filler, extract);
            end.history == s.history && end.mode.Streaming? && end.snapshot.items == View(StateAt(s.history, |s.history|), extract)
    decreases |s.history| + 1 - v
  {
    if v > |s.history| {
      QuietKeepsState(s.history, s.mode.pos, |s.history|);
    } else if s.history[v - 1].Unrelated? {
      StreamCatchesUp(s, v + 1, filler, extract);
    } else {
      DeliverKeepsExact(s, v, false, filler, extract);
      StreamCatchesUp(Step(s, Deliver(v, false, filler), extract), v + 1, filler, extract);
    }
  }

  /** Every run: the snapshot is always exactly the view at one history version, the cursor's if there is one. */
  lemma {:induction false} RunIsExact<V, I>(history: seq<Event<V>>, extract: Extract<V, I>)
    requires After(history, extract).Some?
    ensures Exact(After(history, extract).value, extract) && Fresh(After(history, extract).value)
  {
    if history != [] {
      var n := |history| - 1;
      RunIsExact(history[..n], extract);
      StepKeepsExact(After(history[..n], extract).value, history[n], extract);
      StepKeepsFresh(After(history[..n], extract).value, history[n], extract);
    }
  }

  /** The version shown never decreases, relists and cleared snapshots included. */
  lemma {:induction false} ShownVersionNeverDecreases<V, I>(history: seq<Event<V>>, n: nat, extract: Extract<V, I>)
    requires n <= |history| && After(history, extract).Some?
    ensures After(history[..n], extract).Some?
    ensures var earlier, later := After(history[..n], extract).value, After(history, extract).value;
            earlier.newest <= later.newest
            && (earlier.basis.Some? && later.basis.Some? ==> earlier.basis.value <= later.basis.value)
  {
    var m := |history|;
    if n == m {
      assert history[..n] == history;
    } else {
      assert history[..m - 1][..n] == history[..n];
      ShownVersionNeverDecreases(history[..m - 1], n, extract);
      RunIsExact(history[..m - 1], extract);
      StepKeepsFresh(After(history[..m - 1], extract).value, history[m - 1], extract);
    }
    RunIsExact(history[..n], extract);
    RunIsExact(history, extract);
  }

  /** A hit is the entry of the view at the version the snapshot shows. */
  lemma HitsComeFromHistory<V, I>(history: seq<Event<V>>, name: string, extract: Extract<V, I>)
    requires After(history, extract).Some? && name in After(history, extract).value.snapshot.items
    ensures var s := After(history, extract).value;
            && s.basis.Some? && s.basis.value <= |s.history| && name in StateAt(s.history, s.basis.value)
            && extract(name, StateAt(s.history, s.basis.value)[name]) == Some(s.snapshot.items[name])
  {
    RunIsExact(history, extract);
    var s := After(history, extract).value;
    assert name in View(StateAt(s.history, s.basis.value), extract);
  }
}
