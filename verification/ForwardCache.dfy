/**
 * The forward cache from experiment ids to names (`_resolve_experiment_name_from_experiment_id`), which has no
 * generation guard: lookups race with renames and deletes, whose cache updates come after the store's.
 */
module ForwardCache {
  import opened Wrappers
  import opened TimedEntries
  import opened LookupCache

  /** Where a cached name comes from: a lookup answered, or a rename written, at this version of the store. */
  datatype Origin = Lookup(at: nat) | Rename(at: nat)

  /** A cached name; its origin is not stored by the program, and the cache never looks at values. */
  datatype Stored = Stored(name: string, origin: Origin)

  /** One change of the store: a new name, or none after a delete. */
  datatype Write = Write(id: string, name: Option<string>)

  /** The name of an experiment at a version of the store. */
  function NameAt(h: seq<Write>, v: nat, id: string): Option<string>
    requires v <= |h|
  {
    if v == 0 then None else if h[v - 1].id == id then h[v - 1].name else NameAt(h, v - 1, id)
  }

  /** The version of the latest write to the experiment, or zero. */
  function LastWrite(h: seq<Write>, v: nat, id: string): (w: nat)
    requires v <= |h|
    ensures w <= v && (w > 0 ==> h[w - 1].id == id)
  {
    if v == 0 || h[v - 1].id == id then v else LastWrite(h, v - 1, id)
  }

  /** A lookup that missed: asked, or answered by the store. */
  datatype Pending = Asked(id: string) | Answered(id: string, name: string, at: nat)

  /** The store's history, the operations on the cache, lookups under way, and writes whose cache update is due. */
  datatype State = State(
    history: seq<Write>,
    ops: seq<Op<string, Stored>>,
    lookups: map<nat, Pending>,
    updates: map<nat, nat>,
    clock: Time)

  datatype Event =
    | Hit(id: string, now: Time)
    | Miss(t: nat, id: string, now: Time)
    | Answer(t: nat)
    | Put(t: nat, now: Time)
    | Change(m: nat, write: Write)
    | Update(m: nat, now: Time)

  function Cached(s: State, id: string, now: Time, cfg: Settings): Option<Stored>
    requires cfg.maxEntries >= 1
  {
    AfterGet(Run([], s.ops, cfg).0, id, now).1
  }

  predicate Enabled(s: State, e: Event, cfg: Settings)
    requires cfg.maxEntries >= 1
  {
    match e
    case Hit(id, now) => s.clock <= now && Cached(s, id, now, cfg).Some?
    case Miss(t, id, now) => s.clock <= now && t !in s.lookups && Cached(s, id, now, cfg).None?
    case Answer(t) => t in s.lookups && s.lookups[t].Asked?
    case Put(t, now) => s.clock <= now && t in s.lookups && s.lookups[t].Answered?
    case Change(m, _) => m !in s.updates
    case Update(m, now) => s.clock <= now && m in s.updates && 0 < s.updates[m] <= |s.history|
  }

  /** The cache update after a write: the new name is set, a deleted experiment invalidated. */
  function UpdateOf(w: Write, at: nat, now: Time): Op<string, Stored> {
    if w.name.Some? then Op.Set(w.id, Stored(w.name.value, Rename(at)), now) else Op.Invalidate(w.id)
  }

  function Step(s: State, e: Event, cfg: Settings): State
    requires cfg.maxEntries >= 1 && Enabled(s, e, cfg)
  {
    match e
    case Hit(id, now) => s.(ops := s.ops + [Op.Get(id, now)], clock := now)
    case Miss(t, id, now) => s.(ops := s.ops + [Op.Get(id, now)], clock := now, lookups := s.lookups[t := Asked(id)])
    case Answer(t) =>
      var id := s.lookups[t].id;
      var name := NameAt(s.history, |s.history|, id);
      s.(lookups := if name.Some? then s.lookups[t := Answered(id, name.value, |s.history|)] else s.lookups - {t})
    case Put(t, now) =>
      var l := s.lookups[t];
      s.(ops := s.ops + [Op.Set(l.id, Stored(l.name, Lookup(l.at)), now)], clock := now, lookups := s.lookups - {t})
    case Change(m, w) => s.(history := s.history + [w], updates := s.updates[m := |s.history| + 1])
    case Update(m, now) =>
      var at := s.updates[m];
      s.(ops := s.ops + [UpdateOf(s.history[at - 1], at, now)], clock := now, updates := s.updates - {m})
  }

  function Start(now: Time): State {
    State([], [], map[], map[], now)
  }

  function After(start: Time, events: seq<Event>, cfg: Settings): Option<State>
    requires cfg.maxEntries >= 1
  {
    if events == [] then Some(Start(start))
    else
      var before := After(start, events[..|events| - 1], cfg);
      var last := events[|events| - 1];
      if before.Some? && Enabled(before.value, last, cfg) then Some(Step(before.value, last, cfg)) else None
  }

  // ----- What is cached was the name once -----

  ghost predicate WasName(h: seq<Write>, id: string, name: string, at: nat) {
    at <= |h| && NameAt(h, at, id) == Some(name)
  }

  /** A set puts a name the store had at the version of its origin, and was made by now. */
  ghost predicate OpOk(h: seq<Write>, op: Op<string, Stored>, clock: Time) {
    op.Set? ==> WasName(h, op.key, op.value.name, op.value.origin.at) && op.now <= clock
  }

  ghost predicate Invariant(s: State) {
    && (forall i :: 0 <= i < |s.ops| ==> OpOk(s.history, s.ops[i], s.clock))
    && (forall t :: t in s.lookups && s.lookups[t].Answered? ==> WasName(s.history, s.lookups[t].id, s.lookups[t].name, s.lookups[t].at))
    && (forall m :: m in s.updates ==> 0 < s.updates[m] <= |s.history|)
  }

  lemma {:induction false} PastNames(h: seq<Write>, w: Write, v: nat, id: string)
    requires v <= |h|
    ensures NameAt(h + [w], v, id) == NameAt(h, v, id)
  {
    if v > 0 {
      PastNames(h, w, v - 1, id);
    }
  }

  lemma StepKeepsInvariant(s: State, e: Event, cfg: Settings)
    requires cfg.maxEntries >= 1 && Enabled(s, e, cfg) && Invariant(s)
    ensures Invariant(Step(s, e, cfg))
  {
    if e.Change? {
      forall id, v | 0 <= v <= |s.history| ensures NameAt(s.history + [e.write], v, id) == NameAt(s.history, v, id) {
        PastNames(s.history, e.write, v, id);
      }
    }
  }

  lemma {:induction false} RunKeepsInvariant(start: Time, events: seq<Event>, cfg: Settings)
    requires cfg.maxEntries >= 1 && After(start, events, cfg).Some?
    ensures Invariant(After(start, events, cfg).value)
  {
    if events != [] {
      RunKeepsInvariant(start, events[..|events| - 1], cfg);
      StepKeepsInvariant(After(start, events[..|events| - 1], cfg).value, events[|events| - 1], cfg);
    }
  }

  // ----- Staleness -----

  lemma {:induction false} NameSinceLastWrite(h: seq<Write>, v: nat, id: string)
    requires v <= |h|
    ensures var w := LastWrite(h, v, id); NameAt(h, v, id) == if w == 0 then None else h[w - 1].name
  {
    if v > 0 && h[v - 1].id != id {
      NameSinceLastWrite(h, v - 1, id);
    }
  }

  lemma {:induction false} LastWriteGrows(h: seq<Write>, u: nat, v: nat, id: string)
    requires u <= v <= |h|
    ensures LastWrite(h, u, id) <= LastWrite(h, v, id)
    ensures LastWrite(h, v, id) <= u ==> LastWrite(h, u, id) == LastWrite(h, v, id)
  {
    if u < v && h[v - 1].id != id {
      LastWriteGrows(h, u, v - 1, id);
    }
  }

  /** No write gives the experiment a name it had before. */
  ghost predicate NoNameComesBack(h: seq<Write>, id: string) {
    forall i, j :: 0 <= i < j < |h| && h[i].id == id && h[j].id == id ==> h[i].name != h[j].name
  }

  lemma StaleIff(h: seq<Write>, id: string, name: string, at: nat)
    requires WasName(h, id, name, at)
    ensures NameAt(h, |h|, id) != Some(name) ==> at < LastWrite(h, |h|, id)
    ensures NoNameComesBack(h, id) && at < LastWrite(h, |h|, id) ==> NameAt(h, |h|, id) != Some(name)
  {
    NameSinceLastWrite(h, at, id);
    NameSinceLastWrite(h, |h|, id);
    LastWriteGrows(h, at, |h|, id);
  }

  /** The hit answers with the value of the latest set of its key, made by now and less than one TTL ago. */
  ghost predicate ServedBy(s: State, i: nat, id: string, value: Stored, now: Time, cfg: Settings) {
    i < |s.ops| && s.ops[i].Set? && LatestSet(s.ops, i, id, value, s.ops[i].now) && s.ops[i].now <= now < s.ops[i].now + cfg.ttl
  }

  /**
   * In every run, a hit serves the latest set of its key, less than one TTL old, and with it a name the store
   * had at the version that set goes back to: where its lookup was answered, or its rename written. It is
   * stale only if the experiment was written again after that version; and then it is, unless an old name has
   * come back.
   */
  lemma HitIsStaleIff(start: Time, events: seq<Event>, cfg: Settings, id: string, now: Time)
    requires cfg.maxEntries >= 1 && After(start, events, cfg).Some?
    requires Enabled(After(start, events, cfg).value, Hit(id, now), cfg)
    ensures var s := After(start, events, cfg).value;
            var hit := Cached(s, id, now, cfg).value;
            var latest := LastWrite(s.history, |s.history|, id);
            && (exists i :: ServedBy(s, i, id, hit, now, cfg))
            && WasName(s.history, id, hit.name, hit.origin.at)
            && (NameAt(s.history, |s.history|, id) != Some(hit.name) ==> hit.origin.at < latest)
            && (NoNameComesBack(s.history, id) && hit.origin.at < latest ==> NameAt(s.history, |s.history|, id) != Some(hit.name))
  {
    var s := After(start, events, cfg).value;
    var hit := Cached(s, id, now, cfg).value;
    RunKeepsInvariant(start, events, cfg);
    HitIsLatestSet(s.ops, cfg, id, now);
    var i: nat, at: Time :| LatestSet(s.ops, i, id, hit, at) && now < at + cfg.ttl;
    assert OpOk(s.history, s.ops[i], s.clock);
    assert ServedBy(s, i, id, hit, now, cfg);
    StaleIff(s.history, id, hit.name, hit.origin.at);
  }

  // ----- A stale hit -----

  lemma Extends(start: Time, events: seq<Event>, cfg: Settings, s: State, e: Event, next: State)
    requires cfg.maxEntries >= 1 && After(start, events, cfg) == Some(s) && Enabled(s, e, cfg) && Step(s, e, cfg) == next
    ensures After(start, events + [e], cfg) == Some(next)
  {
    assert (events + [e])[..|events|] == events;
  }

  /** A lookup is answered with the old name; the experiment is renamed, and the cache updated. */
  lemma LookupOvertaken(cfg: Settings) returns (events: seq<Event>, s: State)
    requires cfg.maxEntries >= 1
    ensures After(0.0, events, cfg) == Some(s)
    ensures s.history == [Write("1", Some("old")), Write("1", Some("new"))] && s.clock == 2.0
    ensures s.lookups == map[5 := Answered("1", "old", 1)]
  {
    var s0 := Start(0.0);
    var first, second := Write("1", Some("old")), Write("1", Some("new"));
    var s1 := s0.(history := [first], updates := map[0 := 1]);
    events := [];
    Extends(0.0, events, cfg, s0, Change(0, first), s1);
    events := events + [Change(0, first)];
    var s2 := s1.(ops := [Op.Get("1", 1.0)], clock := 1.0, lookups := map[5 := Asked("1")]);
    Extends(0.0, events, cfg, s1, Miss(5, "1", 1.0), s2);
    events := events + [Miss(5, "1", 1.0)];
    var s3 := s2.(lookups := map[5 := Answered("1", "old", 1)]);
    Extends(0.0, events, cfg, s2, Answer(5), s3);
    events := events + [Answer(5)];
    var s4 := s3.(history := [first, second], updates := map[0 := 1, 1 := 2]);
    Extends(0.0, events, cfg, s3, Change(1, second), s4);
    events := events + [Change(1, second)];
    s := Step(s4, Update(1, 2.0), cfg);
    Extends(0.0, events, cfg, s4, Update(1, 2.0), s);
    events := events + [Update(1, 2.0)];
  }

  /** So a renamed experiment's old name can be served, and is until the lookup's set is one TTL old, and no longer. */
  lemma OldNameCanBeServed(cfg: Settings, now: Time)
    requires cfg.maxEntries >= 1
    ensures exists events :: After(0.0, events, cfg).Some? && ServesOldName(After(0.0, events, cfg).value, now, cfg)
  {
    var events, s := LookupOvertaken(cfg);
    var next := Step(s, Put(5, 3.0), cfg);
    Extends(0.0, events, cfg, s, Put(5, 3.0), next);
    LatestSetIsServed(s.ops, "1", Stored("old", Lookup(1)), 3.0, now, cfg);
    assert ServesOldName(next, now, cfg);
  }

  ghost predicate ServesOldName(s: State, now: Time, cfg: Settings)
    requires cfg.maxEntries >= 1
  {
    && |s.history| == 2 && s.history[1] == Write("1", Some("new"))
    && Cached(s, "1", now, cfg) == if now < 3.0 + cfg.ttl then Some(Stored("old", Lookup(1))) else None
  }

  lemma LatestSetIsServed(ops: seq<Op<string, Stored>>, id: string, value: Stored, at: Time, now: Time, cfg: Settings)
    requires cfg.maxEntries >= 1
    ensures AfterGet(Run([], ops + [Op.Set(id, value, at)], cfg).0, id, now).1 == if now < at + cfg.ttl then Some(value) else None
  {
    var all := ops + [Op.Set(id, value, at)];
    assert all[..|all| - 1] == ops;
    RunIsDistinct(ops, cfg);
    SetIsServed(Run([], ops, cfg).0, id, value, at, now, cfg);
  }

  lemma InvalidatedIsGone(ops: seq<Op<string, Stored>>, id: string, now: Time, cfg: Settings)
    requires cfg.maxEntries >= 1
    ensures AfterGet(Run([], ops + [Op.Invalidate(id)], cfg).0, id, now).1 == None
  {
    var all := ops + [Op.Invalidate(id)];
    assert all[..|all| - 1] == ops;
    RunIsDistinct(ops, cfg);
    WithoutPreserves(Run([], ops, cfg).0, id);
  }

  /** A write whose cache update nothing comes between: a new name is served for one lifetime, a deleted experiment is not in the cache. */
  lemma UndisturbedWrite(s: State, m: nat, w: Write, now: Time, later: Time, cfg: Settings)
    requires cfg.maxEntries >= 1 && m !in s.updates && s.clock <= now <= later < now + cfg.ttl
    ensures var changed := Step(s, Change(m, w), cfg);
            && changed.history == s.history + [w] && Enabled(changed, Update(m, now), cfg)
            && var updated := Step(changed, Update(m, now), cfg);
               && updated.history == changed.history && updated.updates == s.updates && updated.lookups == s.lookups
               && Cached(updated, w.id, later, cfg) == if w.name.Some? then Some(Stored(w.name.value, Rename(|s.history| + 1))) else None
  {
    var updated := Step(Step(s, Change(m, w), cfg), Update(m, now), cfg);
    assert updated.updates == s.updates;
    if w.name.Some? {
      LatestSetIsServed(s.ops, w.id, Stored(w.name.value, Rename(|s.history| + 1)), now, later, cfg);
    } else {
      InvalidatedIsGone(s.ops, w.id, later, cfg);
    }
  }

  /** A lookup that nothing comes between: the store's name is served for one lifetime; of a missing one nothing stays. */
  lemma UndisturbedLookup(s: State, t: nat, id: string, now: Time, later: Time, cfg: Settings)
    requires cfg.maxEntries >= 1 && Enabled(s, Miss(t, id, now), cfg) && later < now + cfg.ttl
    ensures var asked := Step(s, Miss(t, id, now), cfg);
            && Enabled(asked, Answer(t), cfg)
            && var answered, name := Step(asked, Answer(t), cfg), NameAt(s.history, |s.history|, id);
               if name.None? then answered.lookups == s.lookups
               else
                 && Enabled(answered, Put(t, now), cfg)
                 && var put := Step(answered, Put(t, now), cfg);
                    put.lookups == s.lookups && Cached(put, id, later, cfg) == Some(Stored(name.value, Lookup(|s.history|)))
  {
    var answered := Step(Step(s, Miss(t, id, now), cfg), Answer(t), cfg);
    var name := NameAt(s.history, |s.history|, id);
    if name.Some? {
      LatestSetIsServed(answered.ops, id, Stored(name.value, Lookup(|s.history|)), now, later, cfg);
      assert Step(answered, Put(t, now), cfg).lookups == s.lookups;
    } else {
      assert answered.lookups == s.lookups;
    }
  }

  lemma SetIsServed(es: seq<Entry<string, Stored>>, id: string, value: Stored, at: Time, now: Time, cfg: Settings)
    requires cfg.maxEntries >= 1 && DistinctKeys(es)
    ensures AfterGet(Insert(es, id, value, at, cfg.ttl, cfg.maxEntries), id, now).1 == if now < at + cfg.ttl then Some(value) else None
  {
    InsertKeeps(es, id, value, at, cfg.ttl, cfg.maxEntries);
    FindUnique(Insert(es, id, value, at, cfg.ttl, cfg.maxEntries), Entry(id, value, at + cfg.ttl));
  }
}
