/**
 * The experiment name-to-id cache (`_ExperimentIdLookupCache`). A lookup runs outside the cache lock, so a
 * rename or delete may finish while its answer is on the way; the generation counter keeps such an answer
 * out of the cache.
 */
module GenerationCache {
  import opened Wrappers
  import opened TimedEntries
  import opened LookupCache

  datatype NameKey = NameKey(workspace: Option<string>, name: string)

  type Items = seq<Entry<NameKey, string>>

  /** `if cached_id := self.get(key)`: an empty id would count as a miss. */
  function Usable(hit: Option<string>): (r: bool) {
    hit.Some? && hit.value != ""
  }

  class ExperimentIdLookupCache {
    const base: NameLookupCache<NameKey, string>
    var generation: nat

    ghost predicate Valid()
      reads this, base
    {
      base.Valid()
    }

    constructor (cfg: Settings)
      requires cfg.maxEntries >= 1
      ensures Valid() && fresh(base) && base.entries == [] && base.cfg == cfg && generation == 0
    {
      base := new NameLookupCache<NameKey, string>(cfg);
      generation := 0;
    }

    /** First critical section of `resolve`: a usable hit, or the generation the lookup will belong to. */
    method BeginResolve(key: NameKey, now: Time) returns (hit: Option<string>, token: nat)
      requires Valid()
      modifies base
      ensures Valid() && generation == old(generation) == token
      ensures (base.entries, hit) == Apply(old(base.entries), Op.Get(key, now), base.cfg)
    {
      hit := base.Get(key, now);
      token := generation;
    }

    /** Second critical section of `resolve`: admit the answer only if no clear ran since. */
    method EndResolve(key: NameKey, answer: Option<string>, token: nat, now: Time)
      requires Valid()
      modifies base
      ensures Valid() && generation == old(generation)
      ensures base.entries == AfterAnswer(old(base.entries), key, answer, token == generation, now, base.cfg)
      ensures base.entries == if answer.Some? && token == generation then Apply(old(base.entries), Op.Set(key, answer.value, now), base.cfg).0
                              else old(base.entries)
    {
      if answer.Some? && token == generation {
        base.Set(key, answer.value, now);
      }
    }

    /** `resolve` when no other thread interferes; `lookup` is the storage query. */
    method Resolve(key: NameKey, lookup: () -> Option<string>, now: Time, later: Time) returns (id: Option<string>)
      requires Valid()
      modifies base
      ensures Valid() && generation == old(generation)
      ensures var (items, hit) := Apply(old(base.entries), Op.Get(key, now), base.cfg);
              if hit.Some? && hit.value != "" then id == hit && base.entries == items
              else id == lookup() && base.entries == if id.Some? then Apply(items, Op.Set(key, id.value, later), base.cfg).0 else items
    {
      var hit, token := BeginResolve(key, now);
      if Usable(hit) {
        return hit;
      }
      id := lookup();
      EndResolve(key, id, token, later);
    }

    method Clear()
      requires Valid()
      modifies this, base
      ensures Valid() && generation == old(generation) + 1 && base.entries == []
    {
      generation := generation + 1;
      base.Clear();
    }
  }

  function AfterAnswer(es: Items, key: NameKey, answer: Option<string>, current: bool, now: Time, cfg: Settings): (r: Items)
    requires cfg.maxEntries >= 1
  {
    if answer.Some? && current then Insert(es, key, answer.value, now, cfg.ttl, cfg.maxEntries) else es
  }

  // ----- All interleavings of resolvers and mutators -----

  /** A resolver between its two critical sections: still to query storage, or holding the answer. */
  datatype Pending =
    | Asking(key: NameKey, token: nat)
    | Answered(key: NameKey, token: nat, answer: Option<string>)

  datatype State = State(
    items: Items,
    generation: nat,
    store: map<NameKey, string>,
    resolvers: map<nat, Pending>,
    unclear: map<nat, set<NameKey>>)   // keys each mutator has changed and not yet cleared for

  datatype Event =
    | Begin(t: nat, key: NameKey, now: Time)
    | Query(t: nat)
    | Fail(t: nat)
    | End(t: nat, now: Time)
    | Create(key: NameKey, id: string)
    | Mutate(m: nat, removed: set<NameKey>, added: map<NameKey, string>)
    | ClearAll(m: nat)

  predicate Enabled(s: State, ev: Event) {
    match ev
    case Begin(t, _, _) => t !in s.resolvers
    case Query(t) => t in s.resolvers && s.resolvers[t].Asking?
    case Fail(t) => t in s.resolvers && s.resolvers[t].Asking?
    case End(t, _) => t in s.resolvers && s.resolvers[t].Answered?
    case Create(key, _) => key !in s.store
    case Mutate(_, _, _) => true
    case ClearAll(_) => true
  }

  function Owed(s: State, m: nat): set<NameKey> {
    if m in s.unclear then s.unclear[m] else {}
  }

  function Step(s: State, ev: Event, cfg: Settings): State
    requires Enabled(s, ev) && cfg.maxEntries >= 1
  {
    match ev
    case Begin(t, key, now) =>
      var (items, hit) := AfterGet(s.items, key, now);
      if Usable(hit) then s.(items := items)
      else s.(items := items, resolvers := s.resolvers[t := Asking(key, s.generation)])
    case Query(t) =>
      var p := s.resolvers[t];
      var answer := if p.key in s.store then Some(s.store[p.key]) else None;
      s.(resolvers := s.resolvers[t := Answered(p.key, p.token, answer)])
    case Fail(t) => s.(resolvers := s.resolvers - {t})
    case End(t, now) =>
      var p := s.resolvers[t];
      s.(items := AfterAnswer(s.items, p.key, p.answer, p.token == s.generation, now, cfg), resolvers := s.resolvers - {t})
    case Create(key, id) => s.(store := s.store[key := id])
    case Mutate(m, removed, added) =>
      s.(store := s.store - removed + added, unclear := s.unclear[m := Owed(s, m) + removed + added.Keys])
    case ClearAll(m) => s.(items := [], generation := s.generation + 1, unclear := s.unclear - {m})
  }

  function After(store: map<NameKey, string>, history: seq<Event>, cfg: Settings): (r: Option<State>)
    requires cfg.maxEntries >= 1
  {
    if history == [] then Some(State([], 0, store, map[], map[]))
    else
      var before := After(store, history[..|history| - 1], cfg);
      var last := history[|history| - 1];
      if before.Some? && Enabled(before.value, last) then Some(Step(before.value, last, cfg)) else None
  }

  /** Three steps of one resolver with nothing in between: unless a usable id is cached, the store's answer is, for one lifetime. */
  lemma UndisturbedResolveCaches(s: State, t: nat, key: NameKey, now: Time, later: Time, cfg: Settings)
    requires cfg.maxEntries >= 1 && DistinctKeys(s.items) && t !in s.resolvers
    ensures var (items, hit) := Apply(s.items, Op.Get(key, now), cfg);
            var began := Step(s, Begin(t, key, now), cfg);
            if hit.Some? && hit.value != "" then began == s.(items := items)
            else
              && Enabled(began, Query(t)) && Enabled(Step(began, Query(t), cfg), End(t, later))
              && var ended := Step(Step(began, Query(t), cfg), End(t, later), cfg);
                 && ended.generation == s.generation && ended.store == s.store && ended.resolvers == s.resolvers && ended.unclear == s.unclear
                 && (key in s.store ==> Entry(key, s.store[key], later + cfg.ttl) in ended.items)
                 && (key !in s.store ==> ended.items == items)
  {
    var (items, hit) := Apply(s.items, Op.Get(key, now), cfg);
    if !Usable(hit) {
      var ended := Step(Step(Step(s, Begin(t, key, now), cfg), Query(t), cfg), End(t, later), cfg);
      assert ended.resolvers == s.resolvers;
      ApplyKeepsDistinct(s.items, key, now);
      if key in s.store {
        InsertKeeps(items, key, s.store[key], later, cfg.ttl, cfg.maxEntries);
        assert ended.items[|ended.items| - 1] in ended.items;
      }
    }
  }

  lemma OneMoreEvent(store: map<NameKey, string>, history: seq<Event>, ev: Event, cfg: Settings)
    requires cfg.maxEntries >= 1 && After(store, history, cfg).Some? && Enabled(After(store, history, cfg).value, ev)
    ensures After(store, history + [ev], cfg) == Some(Step(After(store, history, cfg).value, ev, cfg))
  {
    assert (history + [ev])[..|history|] == history;
  }

  /** So there is a run that caches what the store has. */
  lemma SomeRunCaches(store: map<NameKey, string>, key: NameKey, now: Time, cfg: Settings)
    requires cfg.maxEntries >= 1 && key in store
    ensures exists history :: After(store, history, cfg).Some? && Entry(key, store[key], now + cfg.ttl) in After(store, history, cfg).value.items
  {
    var start := State([], 0, store, map[], map[]);
    UndisturbedResolveCaches(start, 0, key, now, now, cfg);
    assert After(store, [], cfg) == Some(start);
    OneMoreEvent(store, [], Begin(0, key, now), cfg);
    OneMoreEvent(store, [] + [Begin(0, key, now)], Query(0), cfg);
    OneMoreEvent(store, [] + [Begin(0, key, now)] + [Query(0)], End(0, now), cfg);
    assert After(store, [] + [Begin(0, key, now)] + [Query(0)] + [End(0, now)], cfg).Some?;
  }

  /** An answer that a clear has overtaken is dropped, as a failed lookup is. */
  lemma OvertakenAnswersAreDropped(s: State, t: nat, now: Time, cfg: Settings)
    requires cfg.maxEntries >= 1
    ensures Enabled(s, End(t, now)) && s.resolvers[t].token != s.generation ==>
              Step(s, End(t, now), cfg) == s.(resolvers := s.resolvers - {t})
    ensures Enabled(s, Fail(t)) ==> Step(s, Fail(t), cfg) == s.(resolvers := s.resolvers - {t})
  {
  }

  /** A mutation changes the store at its keys and owes a clear for them; the clear empties the cache, pays what is owed, and overtakes every answer on its way. */
  lemma MutationsClear(s: State, m: nat, removed: set<NameKey>, added: map<NameKey, string>, cfg: Settings)
    requires cfg.maxEntries >= 1 && Invariant(s)
    ensures var changed := Step(s, Mutate(m, removed, added), cfg);
            && changed.items == s.items && changed.generation == s.generation && changed.resolvers == s.resolvers
            && (forall key :: key in changed.store <==> key in added || (key in s.store && key !in removed))
            && (forall key :: key in added ==> changed.store[key] == added[key])
            && (forall key :: key in removed || key in added ==> AwaitingClear(changed, key))
            && (forall key :: AwaitingClear(s, key) ==> AwaitingClear(changed, key))
            && (forall key :: key in changed.store && key !in added ==> changed.store[key] == s.store[key])
    ensures var cleared := Step(s, ClearAll(m), cfg);
            && cleared.items == [] && cleared.store == s.store && cleared.resolvers == s.resolvers && m !in cleared.unclear
            && (forall other :: other != m && other in s.unclear ==> other in cleared.unclear && cleared.unclear[other] == s.unclear[other])
            && forall t :: t in cleared.resolvers ==> cleared.resolvers[t].token != cleared.generation
  {
    var changed := Step(s, Mutate(m, removed, added), cfg);
    assert m in changed.unclear;
    forall key | AwaitingClear(s, key) ensures AwaitingClear(changed, key) {
      var other :| other in s.unclear && key in s.unclear[other];
      assert other in changed.unclear && key in changed.unclear[other];
    }
  }

  /** Some mutator has changed this key and its clear has not run yet. */
  ghost predicate AwaitingClear(s: State, key: NameKey) {
    exists m :: m in s.unclear && key in s.unclear[m]
  }

  ghost predicate AgreesWithStore(s: State, key: NameKey, id: string) {
    AwaitingClear(s, key) || (key in s.store && s.store[key] == id)
  }

  ghost predicate Invariant(s: State) {
    && DistinctKeys(s.items)
    && (forall e :: e in s.items ==> AgreesWithStore(s, e.key, e.value))
    && (forall t :: t in s.resolvers ==> s.resolvers[t].token <= s.generation)
    && (forall t :: t in s.resolvers && s.resolvers[t].Answered? && s.resolvers[t].answer.Some? && s.resolvers[t].token == s.generation
          ==> AgreesWithStore(s, s.resolvers[t].key, s.resolvers[t].answer.value))
  }

  /** Changing the store at keys that then await a clear, or at absent keys, leaves every other agreement. */
  lemma AgreementSurvives(s: State, s': State)
    requires forall m :: m in s.unclear ==> m in s'.unclear && s.unclear[m] <= s'.unclear[m]
    requires forall k :: k in s.store && !AwaitingClear(s', k) ==> k in s'.store && s'.store[k] == s.store[k]
    ensures forall k, id :: AgreesWithStore(s, k, id) ==> AgreesWithStore(s', k, id)
  {
  }

  lemma MutateKeepsInvariant(s: State, m: nat, removed: set<NameKey>, added: map<NameKey, string>, cfg: Settings)
    requires cfg.maxEntries >= 1 && Invariant(s)
    ensures Invariant(Step(s, Mutate(m, removed, added), cfg))
  {
    var s' := Step(s, Mutate(m, removed, added), cfg);
    forall k | k in s.store && !AwaitingClear(s', k) ensures k in s'.store && s'.store[k] == s.store[k] {
      assert m in s'.unclear && k !in s'.unclear[m];
    }
    AgreementSurvives(s, s');
  }

  lemma BeginKeepsInvariant(s: State, t: nat, key: NameKey, now: Time, cfg: Settings)
    requires cfg.maxEntries >= 1 && Invariant(s) && Enabled(s, Begin(t, key, now))
    ensures Invariant(Step(s, Begin(t, key, now), cfg))
  {
    ApplyKeepsDistinct(s.items, key, now);
    AgreementSurvives(s, Step(s, Begin(t, key, now), cfg));
  }

  lemma ApplyKeepsDistinct(es: Items, key: NameKey, now: Time)
    requires DistinctKeys(es)
    ensures DistinctKeys(AfterGet(es, key, now).0)
    ensures forall e :: e in AfterGet(es, key, now).0 ==> e in es
  {
    WithoutPreserves(es, key);
  }

  lemma EndKeepsInvariant(s: State, t: nat, now: Time, cfg: Settings)
    requires cfg.maxEntries >= 1 && Invariant(s) && Enabled(s, End(t, now))
    ensures Invariant(Step(s, End(t, now), cfg))
  {
    var p := s.resolvers[t];
    AgreementSurvives(s, Step(s, End(t, now), cfg));
    if p.answer.Some? && p.token == s.generation {
      InsertKeeps(s.items, p.key, p.answer.value, now, cfg.ttl, cfg.maxEntries);
      InsertAddsOne(s.items, p.key, p.answer.value, now, cfg.ttl, cfg.maxEntries);
    }
  }

  lemma StepKeepsInvariant(s: State, ev: Event, cfg: Settings)
    requires cfg.maxEntries >= 1 && Invariant(s) && Enabled(s, ev)
    ensures Invariant(Step(s, ev, cfg))
  {
    match ev
    case Begin(t, key, now) => BeginKeepsInvariant(s, t, key, now, cfg);
    case Query(t) => AgreementSurvives(s, Step(s, ev, cfg));
    case Fail(t) => AgreementSurvives(s, Step(s, ev, cfg));
    case End(t, now) => EndKeepsInvariant(s, t, now, cfg);
    case Create(key, id) => AgreementSurvives(s, Step(s, ev, cfg));
    case Mutate(m, removed, added) => MutateKeepsInvariant(s, m, removed, added, cfg);
    case ClearAll(m) =>
  }

  /**
   * In every interleaving, each cached mapping and each in-flight answer whose generation is still current
   * is the store's, unless its key was changed by a mutator whose clear has not run.
   */
  lemma {:induction false} RunKeepsInvariant(store: map<NameKey, string>, history: seq<Event>, cfg: Settings)
    requires cfg.maxEntries >= 1 && After(store, history, cfg).Some?
    ensures Invariant(After(store, history, cfg).value)
  {
    if history != [] {
      var n := |history| - 1;
      RunKeepsInvariant(store, history[..n], cfg);
      StepKeepsInvariant(After(store, history[..n], cfg).value, history[n], cfg);
    }
  }

  /** With no mutation awaiting its clear, the cache is a sub-map of the store. */
  lemma QuietCacheIsSubmapOfStore(store: map<NameKey, string>, history: seq<Event>, cfg: Settings, key: NameKey)
    requires cfg.maxEntries >= 1 && After(store, history, cfg).Some?
    requires After(store, history, cfg).value.unclear == map[]
    ensures var s := After(store, history, cfg).value;
            Find(s.items, key).Some? ==> key in s.store && s.store[key] == Find(s.items, key).value.value
  {
    RunKeepsInvariant(store, history, cfg);
    var s := After(store, history, cfg).value;
    if Find(s.items, key).Some? {
      assert Find(s.items, key).value in s.items;
    }
  }
}
