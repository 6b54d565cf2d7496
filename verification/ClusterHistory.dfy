/**
 * The API server as a versioned history, and the client-side view every list/watch cache keeps of it:
 * a map from name to extracted info, and the resource version it was last told about.
 */
module ClusterHistory {
  import opened Wrappers

  /** One committed version: an object of the watched selection written or removed, or some other write. */
  datatype Change<V> = Put(name: string, value: V) | Remove(name: string) | Unrelated

  function ApplyChange<V>(objects: map<string, V>, c: Change<V>): map<string, V> {
    match c
    case Put(name, value) => objects[name := value]
    case Remove(name) => objects - {name}
    case Unrelated => objects
  }

  /** The watched objects at version `u`. */
  function StateAt<V>(h: seq<Change<V>>, u: nat): map<string, V>
    requires u <= |h|
  {
    if u == 0 then map[] else ApplyChange(StateAt(h, u - 1), h[u - 1])
  }

  lemma {:induction false} PastIsFixed<V>(h: seq<Change<V>>, more: seq<Change<V>>, u: nat)
    requires u <= |h|
    ensures StateAt(h + more, u) == StateAt(h, u)
  {
    if u > 0 { PastIsFixed(h, more, u - 1); }
  }

  ghost predicate QuietBetween<V>(h: seq<Change<V>>, from: nat, to: nat) {
    from <= to <= |h| && forall i :: from <= i < to ==> h[i].Unrelated?
  }

  lemma {:induction false} QuietKeepsState<V>(h: seq<Change<V>>, from: nat, to: nat)
    requires QuietBetween(h, from, to)
    ensures StateAt(h, from) == StateAt(h, to)
  {
    if from < to { QuietKeepsState(h, from, to - 1); }
  }

  // ----- The client's view -----

  /** How a cache reads an object; `None` leaves the object out of its view. */
  type Extract<!V, !I> = (string, V) -> Option<I>

  function View<V, I>(objects: map<string, V>, extract: Extract<V, I>): map<string, I> {
    map name | name in objects && extract(name, objects[name]).Some? :: extract(name, objects[name]).value
  }

  datatype EventType = ADDED | MODIFIED | DELETED | BOOKMARK | ERROR | OTHER

  /** An object as it arrives: its name and resource version may be missing. */
  datatype Object<V> = Object(name: Option<string>, version: Option<nat>, value: V)

  datatype WatchEvent<V> = WatchEvent(kind: EventType, payload: Option<Object<V>>)

  datatype Snapshot<I> = Snapshot(items: map<string, I>, cursor: Option<nat>)

  predicate Named<V>(o: Option<Object<V>>) {
    o.Some? && o.value.name.Some? && o.value.name.value != ""
  }

  /** `_handle_event`. */
  function Handle<V, I>(s: Snapshot<I>, ev: WatchEvent<V>, extract: Extract<V, I>): (r: Snapshot<I>) {
    if ev.kind == ERROR then s.(cursor := None)
    else if ev.kind == BOOKMARK then
      if ev.payload.Some? && ev.payload.value.version.Some? then s.(cursor := ev.payload.value.version) else s
    else if !Named(ev.payload) then s
    else
      var o := ev.payload.value;
      var name := o.name.value;
      if ev.kind == ADDED || ev.kind == MODIFIED then
        var info := extract(name, o.value);
        Snapshot(if info.Some? then s.items[name := info.value] else s.items - {name}, o.version)
      else if ev.kind == DELETED then Snapshot(s.items - {name}, o.version)
      else s.(cursor := None)
  }

  /** The last object of a list with a name. */
  ghost predicate LastNamed<V>(objects: seq<Object<V>>, i: nat, name: string) {
    i < |objects| && objects[i].name == Some(name) && forall j :: i < j < |objects| ==> objects[j].name != Some(name)
  }

  /** What handling an event must do, name by name, and to the cursor. */
  ghost predicate Handled<V, I>(before: Snapshot<I>, ev: WatchEvent<V>, after: Snapshot<I>, extract: Extract<V, I>) {
    var named := ev.payload.Some? && ev.payload.value.name.Some? && ev.payload.value.name != Some("");
    var written, removed := named && ev.kind in {ADDED, MODIFIED}, named && ev.kind == DELETED;
    && (forall n :: !((written || removed) && ev.payload.value.name == Some(n)) ==>
          (n in after.items <==> n in before.items) && (n in before.items ==> after.items[n] == before.items[n]))
    && (removed ==> ev.payload.value.name.value !in after.items)
    && (written ==> var n := ev.payload.value.name.value;
                    var info := extract(n, ev.payload.value.value);
                    (n in after.items <==> info.Some?) && (info.Some? ==> after.items[n] == info.value))
    && (written || removed ==> after.cursor == ev.payload.value.version)
    && (ev.kind == ERROR || (named && ev.kind == OTHER) ==> after.cursor == None)
    && (ev.kind == BOOKMARK && ev.payload.Some? && ev.payload.value.version.Some? ==> after.cursor == ev.payload.value.version)
    && (ev.kind == BOOKMARK && (ev.payload.None? || ev.payload.value.version.None?) ==> after.cursor == before.cursor)
    && (ev.kind in {ADDED, MODIFIED, DELETED, OTHER} && !named ==> after.cursor == before.cursor)
  }

  lemma HandleIsExact<V, I>(s: Snapshot<I>, ev: WatchEvent<V>, extract: Extract<V, I>)
    ensures Handled(s, ev, Handle(s, ev, extract), extract)
  {
  }

  /** The view a list response gives; the last object of a name wins. */
  function FromList<V, I>(objects: seq<Object<V>>, extract: Extract<V, I>): (r: map<string, I>)
    ensures forall name :: name in r ==> exists o :: o in objects && o.name == Some(name) && extract(name, o.value) == Some(r[name])
    ensures forall o :: o in objects && Named(Some(o)) && extract(o.name.value, o.value).Some? ==> o.name.value in r
  {
    if objects == [] then map[]
    else
      var front, last := FromList(objects[..|objects| - 1], extract), objects[|objects| - 1];
      var info := if Named(Some(last)) then extract(last.name.value, last.value) else None;
      if info.Some? then front[last.name.value := info.value] else front
  }

  /** What the list has last under a name is what its view shows there. */
  lemma {:induction false} LastIsListed<V, I>(objects: seq<Object<V>>, i: nat, name: string, extract: Extract<V, I>)
    requires LastNamed(objects, i, name) && name != "" && extract(name, objects[i].value).Some?
    ensures name in FromList(objects, extract) && Some(FromList(objects, extract)[name]) == extract(name, objects[i].value)
  {
    var front, last := objects[..|objects| - 1], objects[|objects| - 1];
    assert front + [last] == objects;
    OneMoreListed(front, last, name, extract);
    if i < |front| {
      StillLast(front, last, i, name);
      LastIsListed(front, i, name, extract);
    }
  }

  lemma StillLast<V>(front: seq<Object<V>>, last: Object<V>, i: nat, name: string)
    requires LastNamed(front + [last], i, name) && i < |front|
    ensures LastNamed(front, i, name) && (front + [last])[i] == front[i] && last.name != Some(name)
  {
    var all := front + [last];
    assert all[|front|] == last;
    forall j | i < j < |front| ensures front[j].name != Some(name) {
      assert all[j] == front[j];
    }
  }

  lemma OneMoreListed<V, I>(front: seq<Object<V>>, last: Object<V>, name: string, extract: Extract<V, I>)
    requires name != ""
    ensures var before, after := FromList(front, extract), FromList(front + [last], extract);
            && (last.name != Some(name) ==> (name in after <==> name in before) && (name in before ==> after[name] == before[name]))
            && (last.name == Some(name) && extract(name, last.value).Some? ==> name in after && Some(after[name]) == extract(name, last.value))
  {
    assert (front + [last])[..|front|] == front;
  }

  /** A listing that shows every object of a state, and nothing else, reads as the view of that state. */
  lemma ListingIsView<V, I>(objects: seq<Object<V>>, state: map<string, V>, extract: Extract<V, I>)
    requires "" !in state
    requires forall o :: o in objects ==> o.name.Some? && o.name.value in state && state[o.name.value] == o.value
    requires forall name :: name in state ==> exists o :: o in objects && o.name == Some(name)
    ensures FromList(objects, extract) == View(state, extract)
  {
    var listed, view := FromList(objects, extract), View(state, extract);
    forall name ensures name in listed <==> name in view {
      if name in view {
        var o :| o in objects && o.name == Some(name);
      }
    }
  }

  /** What the server sends for version `v` of a selected object; a write may arrive as either kind. */
  function EventFor<V>(c: Change<V>, v: nat, asAdded: bool, deleted: V): WatchEvent<V>
    requires !c.Unrelated?
  {
    match c
    case Put(name, value) => WatchEvent(if asAdded then ADDED else MODIFIED, Some(Object(Some(name), Some(v), value)))
    case Remove(name) => WatchEvent(DELETED, Some(Object(Some(name), Some(v), deleted)))
  }

  /** Applying the event for a version to the view just before it gives the view at that version. */
  lemma HandleAdvances<V, I>(h: seq<Change<V>>, v: nat, asAdded: bool, deleted: V, cursor: Option<nat>, extract: Extract<V, I>)
    requires 0 < v <= |h| && !h[v - 1].Unrelated? && h[v - 1].name != ""
    ensures Handle(Snapshot(View(StateAt(h, v - 1), extract), cursor), EventFor(h[v - 1], v, asAdded, deleted), extract)
            == Snapshot(View(StateAt(h, v), extract), Some(v))
  {
  }

  /** A whole stream, up to and including the first event that drops the cursor. */
  function Replay<V, I>(s: Snapshot<I>, events: seq<WatchEvent<V>>, extract: Extract<V, I>): (r: Snapshot<I>)
    decreases |events|
  {
    if events == [] then s
    else
      var next := Handle(s, events[0], extract);
      if next.cursor.None? then next else Replay(next, events[1..], extract)
  }

  /** Whatever follows an ERROR, or any event that drops the cursor, in the same stream has no effect. */
  lemma {:induction false} NothingAppliesAfterError<V, I>(
      s: Snapshot<I>, before: seq<WatchEvent<V>>, error: WatchEvent<V>, rest: seq<WatchEvent<V>>, extract: Extract<V, I>)
    requires error.kind == ERROR
    ensures Replay(s, before + [error] + rest, extract) == Replay(s, before + [error], extract)
    ensures Replay(s, before + [error], extract).items == Replay(s, before, extract).items
    decreases |before|
  {
    var all := before + [error] + rest;
    if before != [] {
      var next := Handle(s, before[0], extract);
      assert all[1..] == before[1..] + [error] + rest && all[0] == before[0];
      assert (before + [error])[1..] == before[1..] + [error] && (before + [error])[0] == before[0];
      NothingAppliesAfterError(next, before[1..], error, rest, extract);
    }
  }
}
