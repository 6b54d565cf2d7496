/**
 * `MlflowConfigCache._try_reload` lists and installs a snapshot from a request thread. Two overlapping
 * reloads can install the older list under a stream opened at the newer one; this module says exactly
 * when that keeps the cache exact, and gives the interleaving in which it does not.
 */
module ReloadRace {
  import opened Wrappers
  import opened ClusterHistory
  import opened Replication

  /** The watch thread's replica, and the versions at which request threads' lists were evaluated. */
  datatype RaceState<V, I> = RaceState(core: State<V, I>, reloads: map<nat, nat>)

  /** A refused reload, of a missing or forbidden resource, clears the cache. */
  datatype RaceEvent<V> = Watch(ev: Event<V>) | SendReload(t: nat) | ReloadArrives(t: nat) | ReloadRefused(t: nat)

  predicate RaceEnabled<V(==), I>(s: RaceState<V, I>, ev: RaceEvent<V>) {
    match ev
    case Watch(e) => Enabled(s.core, e)
    case SendReload(t) => t !in s.reloads
    case ReloadArrives(t) => t in s.reloads && s.reloads[t] <= |s.core.history|
    case ReloadRefused(t) => t in s.reloads
  }

  function Install<V, I>(core: State<V, I>, at: nat, extract: Extract<V, I>): State<V, I>
    requires at <= |core.history|
  {
    core.(snapshot := Snapshot(View(StateAt(core.history, at), extract), Some(at)), basis := Some(at))
  }

  function Refuse<V, I>(core: State<V, I>): State<V, I> {
    core.(snapshot := Snapshot(map[], None), basis := None)
  }

  function RaceStep<V(==), I>(s: RaceState<V, I>, ev: RaceEvent<V>, extract: Extract<V, I>): RaceState<V, I>
    requires RaceEnabled(s, ev)
  {
    match ev
    case Watch(e) => s.(core := Step(s.core, e, extract))
    case SendReload(t) => s.(reloads := s.reloads[t := |s.core.history|])
    case ReloadArrives(t) => RaceState(Install(s.core, s.reloads[t], extract), s.reloads - {t})
    case ReloadRefused(t) => RaceState(Refuse(s.core), s.reloads - {t})
  }

  function RaceAfter<V(==), I>(history: seq<RaceEvent<V>>, extract: Extract<V, I>): (r: Option<RaceState<V, I>>) {
    if history == [] then Some(RaceState(Start(), map[]))
    else
      var before := RaceAfter(history[..|history| - 1], extract);
      var last := history[|history| - 1];
      if before.Some? && RaceEnabled(before.value, last) then Some(RaceStep(before.value, last, extract)) else None
  }

  /** No reload of the history lands, or is refused, while a stream is open. */
  ghost predicate NoReloadUnderStream<V, I>(history: seq<RaceEvent<V>>, extract: Extract<V, I>) {
    forall i :: 0 <= i < |history| && (history[i].ReloadArrives? || history[i].ReloadRefused?) && RaceAfter(history[..i], extract).Some?
      ==> !RaceAfter(history[..i], extract).value.core.mode.Streaming?
  }

  /** Reloads by any number of request threads keep the cache exact as long as none lands under a stream. */
  lemma {:induction false} ReloadsBetweenStreamsAreExact<V, I>(history: seq<RaceEvent<V>>, extract: Extract<V, I>)
    requires RaceAfter(history, extract).Some? && NoReloadUnderStream(history, extract)
    ensures Exact(RaceAfter(history, extract).value.core, extract)
  {
    if history != [] {
      var n := |history| - 1;
      forall i | 0 <= i < n ensures history[..n][..i] == history[..i] && history[..n][i] == history[i] { }
      ReloadsBetweenStreamsAreExact(history[..n], extract);
      var s := RaceAfter(history[..n], extract).value;
      match history[n]
      case Watch(e) => StepKeepsExact(s.core, e, extract);
      case _ =>
    }
  }

  /** The two views agree on every name but one. */
  ghost predicate AgreeExcept<I(!new)>(a: map<string, I>, b: map<string, I>, name: string) {
    forall n :: n != name ==> (n in a <==> n in b) && (n in a ==> a[n] == b[n])
  }

  /** The snapshot after a list of version `at` was installed and the event of version `v` then applied. */
  function AfterLateInstall<V(==), I>(core: State<V, I>, at: nat, v: nat, asAdded: bool, last: V, extract: Extract<V, I>): (r: Snapshot<I>)
    requires at <= |core.history| && Enabled(core, Deliver(v, asAdded, last))
  {
    Step(Install(core, at, extract), Deliver(v, asAdded, last), extract).snapshot
  }

  lemma AfterLateInstallIsHandled<V, I>(core: State<V, I>, at: nat, v: nat, asAdded: bool, last: V, extract: Extract<V, I>)
    requires at <= |core.history| && Enabled(core, Deliver(v, asAdded, last))
    ensures AfterLateInstall(core, at, v, asAdded, last, extract)
         == Handle(Snapshot(View(StateAt(core.history, at), extract), Some(at)), EventFor(core.history[v - 1], v, asAdded, last), extract)
  {
  }

  /**
   * A list of version `at` installed under a stream standing at `pos`: after the stream's next event the
   * snapshot is the view at its new cursor exactly if the two views agreed on every name that event does not
   * replace.
   */
  lemma ReloadUnderStreamIsExactIff<V(!new), I(!new)>(core: State<V, I>, at: nat, v: nat, asAdded: bool, last: V, extract: Extract<V, I>)
    requires Exact(core, extract) && at <= |core.history| && Enabled(core, Deliver(v, asAdded, last))
    ensures AfterLateInstall(core, at, v, asAdded, last, extract) == Snapshot(View(StateAt(core.history, v), extract), Some(v))
        <==> AgreeExcept(View(StateAt(core.history, at), extract), View(StateAt(core.history, core.mode.pos), extract),
                         core.history[v - 1].name)
  {
    AfterLateInstallIsHandled(core, at, v, asAdded, last, extract);
    QuietKeepsState(core.history, core.mode.pos, v - 1);
    LateEventIsExactIff(core.history, Snapshot(View(StateAt(core.history, at), extract), Some(at)), v, asAdded, last, extract);
  }

  /**
   * A reload refused under a stream standing at `pos`: the stream goes on, and after its next event the
   * snapshot is the view at its new cursor exactly if nothing but the object of that event was there.
   */
  lemma RefusalUnderStreamIsExactIff<V(!new), I(!new)>(core: State<V, I>, v: nat, asAdded: bool, last: V, extract: Extract<V, I>)
    requires Exact(core, extract) && Enabled(core, Deliver(v, asAdded, last))
    ensures Step(Refuse(core), Deliver(v, asAdded, last), extract).snapshot == Snapshot(View(StateAt(core.history, v), extract), Some(v))
        <==> forall n :: n in View(StateAt(core.history, core.mode.pos), extract) ==> n == core.history[v - 1].name
  {
    QuietKeepsState(core.history, core.mode.pos, v - 1);
    LateEventIsExactIff(core.history, Snapshot(map[], None), v, asAdded, last, extract);
  }

  /** The event of version `v` applied to any snapshot at all. */
  lemma LateEventIsExactIff<V(!new), I(!new)>(h: seq<Change<V>>, s: Snapshot<I>, v: nat, asAdded: bool, last: V, extract: Extract<V, I>)
    requires 0 < v <= |h| && !h[v - 1].Unrelated? && h[v - 1].name != ""
    ensures Handle(s, EventFor(h[v - 1], v, asAdded, last), extract) == Snapshot(View(StateAt(h, v), extract), Some(v))
        <==> AgreeExcept(s.items, View(StateAt(h, v - 1), extract), h[v - 1].name)
  {
    HandleAdvances(h, v, asAdded, last, None, extract);
    SameEventAgreesIff(s.items, View(StateAt(h, v - 1), extract), s.cursor, None, EventFor(h[v - 1], v, asAdded, last), extract);
  }

  /** One event applied to two snapshots makes them equal exactly if they agreed off the event's name. */
  lemma SameEventAgreesIff<V(!new), I(!new)>(
      a: map<string, I>, b: map<string, I>, ca: Option<nat>, cb: Option<nat>, ev: WatchEvent<V>, extract: Extract<V, I>)
    requires Named(ev.payload) && ev.kind in {ADDED, MODIFIED, DELETED}
    ensures Handle(Snapshot(a, ca), ev, extract).items == Handle(Snapshot(b, cb), ev, extract).items
        <==> AgreeExcept(a, b, ev.payload.value.name.value)
  {
    var name := ev.payload.value.name.value;
    var a', b' := Handle(Snapshot(a, ca), ev, extract).items, Handle(Snapshot(b, cb), ev, extract).items;
    forall n | n != name
      ensures (n in a' <==> n in a) && (n in a ==> a'[n] == a[n])
      ensures (n in b' <==> n in b) && (n in b ==> b'[n] == b[n])
    { }
    assert (name in a' <==> name in b') && (name in a' ==> a'[name] == b'[name]);
  }

  const PLAIN: Extract<int, int> := (name: string, value: int) => Some(value)

  lemma RaceExtends(history: seq<RaceEvent<int>>, s: RaceState<int, int>, ev: RaceEvent<int>)
    requires RaceAfter(history, PLAIN) == Some(s) && RaceEnabled(s, ev)
    ensures RaceAfter(history + [ev], PLAIN) == Some(RaceStep(s, ev, PLAIN))
  {
    assert (history + [ev])[..|history|] == history;
  }

  /** Two reloads race up to the moment the older list lands under the stream opened at the newer one. */
  lemma OlderReloadLandsUnderStream() returns (history: seq<RaceEvent<int>>)
    ensures RaceAfter(history, PLAIN)
         == Some(RaceState(State([Put("a", 1)], Snapshot(map[], Some(0)), Streaming(1), Some(0), 0), map[]))
  {
    var c: seq<Change<int>> := [Put("a", 1)];
    assert StateAt(c, 1) == map["a" := 1] && View(StateAt(c, 0), PLAIN) == map[];
    var s0 := RaceState(Start<int, int>(), map[]);
    var s1 := RaceStep(s0, SendReload(1), PLAIN);
    RaceExtends([], s0, SendReload(1));
    history := [] + [SendReload(1)];
    var s2 := RaceStep(s1, Watch(Commit(Put("a", 1))), PLAIN);
    RaceExtends(history, s1, Watch(Commit(Put("a", 1))));
    history := history + [Watch(Commit(Put("a", 1)))];
    assert s2.core.history == c;
    var s3 := RaceStep(s2, SendReload(2), PLAIN);
    RaceExtends(history, s2, SendReload(2));
    history := history + [SendReload(2)];
    var s4 := RaceStep(s3, ReloadArrives(2), PLAIN);
    RaceExtends(history, s3, ReloadArrives(2));
    history := history + [ReloadArrives(2)];
    assert s4.reloads == map[1 := 0];
    var s5 := RaceStep(s4, Watch(OpenStream), PLAIN);
    RaceExtends(history, s4, Watch(OpenStream));
    history := history + [Watch(OpenStream)];
    var s6 := RaceStep(s5, ReloadArrives(1), PLAIN);
    RaceExtends(history, s5, ReloadArrives(1));
    history := history + [ReloadArrives(1)];
    assert s6.reloads == map[];
  }

  /** After one more event the snapshot is the view of no version at all. */
  lemma OverlappingReloadsCanDiverge()
    ensures exists history: seq<RaceEvent<int>> :: RaceAfter(history, PLAIN).Some?
              && var core := RaceAfter(history, PLAIN).value.core;
                 forall u: nat :: u <= |core.history| ==> core.snapshot.items != View(StateAt(core.history, u), PLAIN)
  {
    var history := OlderReloadLandsUnderStream();
    var s := RaceAfter(history, PLAIN).value;
    var s1 := RaceStep(s, Watch(Commit(Put("b", 2))), PLAIN);
    RaceExtends(history, s, Watch(Commit(Put("b", 2))));
    history := history + [Watch(Commit(Put("b", 2)))];
    RaceExtends(history, s1, Watch(Deliver(2, true, 0)));
    history := history + [Watch(Deliver(2, true, 0))];
    var core := RaceAfter(history, PLAIN).value.core;
    var h := core.history;
    assert h == [Put("a", 1), Put("b", 2)];
    assert StateAt(h, 0) == map[] && StateAt(h, 1) == map["a" := 1] && StateAt(h, 2) == map["a" := 1, "b" := 2];
    assert "b" in core.snapshot.items && "a" !in core.snapshot.items;
    forall u: nat | u <= |h| ensures core.snapshot.items != View(StateAt(h, u), PLAIN) {
      assert u == 0 || u == 1 || u == 2;
      assert "b" in View(StateAt(h, u), PLAIN) ==> "a" in View(StateAt(h, u), PLAIN);
    }
  }
}
