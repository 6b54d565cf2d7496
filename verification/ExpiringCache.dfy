/**
 * The authorizer's time-limited cache (`_ExpiringCache`). `get` runs in two critical sections: it reads
 * under the read lock and, when it saw an expired entry, comes back under the write lock to drop it. In
 * between, any other thread may have run. Each critical section is one atomic step here; that no two of
 * them overlap is what module ReadWriteLock proves of the lock.
 */
module ExpiringCache {
  import opened Wrappers
  import opened TimedEntries

  /** What the read phase of `get` concludes. */
  datatype Reading<V> = Absent | Fresh(value: V) | Stale(observed: Time)

  function Read<K(==, !new), V(!new)>(es: seq<Entry<K, V>>, key: K, now: Time): (r: Reading<V>) {
    match Find(es, key)
    case None => Absent
    case Some(e) => if e.expires > now then Fresh(e.value) else Stale(e.expires)
  }

  /** The write phase of `get`: drop the key unless it was refreshed since it was observed expired. */
  function Cleanup<K(==, !new), V(!new)>(es: seq<Entry<K, V>>, key: K, observed: Time): (r: seq<Entry<K, V>>) {
    match Find(es, key)
    case None => es
    case Some(e) => if e.expires <= observed then Without(es, key) else es
  }

  class ExpiringCache<K(==, !new), V(!new)> {
    const ttl: Time
    const maxEntries: nat
    var entries: seq<Entry<K, V>>

    ghost predicate Valid()
      reads this
    {
      maxEntries >= 1 && DistinctKeys(entries) && |entries| <= maxEntries
    }

    constructor (ttl: Time, maxEntries: nat)
      requires maxEntries >= 1
      ensures Valid() && entries == [] && this.ttl == ttl && this.maxEntries == maxEntries
    {
      this.ttl := ttl;
      this.maxEntries := maxEntries;
      entries := [];
    }

    /** First critical section of `get`: fresh exactly if the key has a live entry, stale exactly if it has an expired one. */
    method ReadPhase(key: K, now: Time) returns (r: Reading<V>)
      requires Valid()
      ensures r == Read(entries, key, now)
      ensures forall v :: r == Fresh(v) <==> exists e :: e in entries && e.key == key && e.value == v && e.expires > now
      ensures forall at :: r == Stale(at) <==> exists e :: e in entries && e.key == key && e.expires == at && at <= now
      ensures r.Absent? <==> forall e :: e in entries ==> e.key != key
    {
      var entry := Find(entries, key);
      if entry.Some? {
        assert entry.value in entries;
      }
      forall e | e in entries && e.key == key ensures entry == Some(e) {
        FindUnique(entries, e);
      }
      if entry.None? {
        return Absent;
      }
      if entry.value.expires > now {
        return Fresh(entry.value.value);
      }
      return Stale(entry.value.expires);
    }

    /** Second critical section of `get`. */
    method CleanupPhase(key: K, observed: Time)
      requires Valid()
      modifies this
      ensures Valid()
      ensures entries == Cleanup(old(entries), key, observed)
    {
      var current := Find(entries, key);
      if current.Some? && current.value.expires <= observed {
        WithoutPreserves(entries, key);
        entries := Without(entries, key);
      }
    }

    /** `get` when no other thread runs between its two phases. */
    method Get(key: K, now: Time) returns (r: Option<V>)
      requires Valid()
      modifies this
      ensures Valid()
      ensures r == match Read(old(entries), key, now) { case Fresh(v) => Some(v) case _ => None }
      ensures entries == if Read(old(entries), key, now).Stale? then Without(old(entries), key) else old(entries)
    {
      var reading := ReadPhase(key, now);
      match reading
      case Absent => r := None;
      case Fresh(v) => r := Some(v);
      case Stale(observed) => CleanupPhase(key, observed); r := None;
    }

    method Set(key: K, value: V, now: Time)
      requires Valid()
      modifies this
      ensures Valid()
      ensures entries == Insert(old(entries), key, value, now, ttl, maxEntries)
    {
      InsertKeeps(entries, key, value, now, ttl, maxEntries);
      entries := InsertInPlace(entries, key, value, now, ttl, maxEntries);
    }
  }

  // ----- All interleavings -----

  /** One critical section, run by thread `t` where the thread matters; `now` is the clock read inside it. */
  datatype Event<K, V> =
    | BeginGet(t: nat, key: K, now: Time)
    | FinishGet(t: nat)
    | SetEntry(key: K, value: V, now: Time)

  datatype Observation<K> = Observation(key: K, expires: Time)

  /** The shared items, the threads between the two phases of a `get`, and the latest clock reading. */
  datatype State<K, V> = State(entries: seq<Entry<K, V>>, inFlight: map<nat, Observation<K>>, clock: Time)

  datatype Config = Config(ttl: Time, maxEntries: nat)

  /** The event can happen now; clock readings never go back. */
  predicate Enabled<K, V>(s: State<K, V>, ev: Event<K, V>) {
    match ev
    case BeginGet(t, _, now) => t !in s.inFlight && s.clock <= now
    case FinishGet(t) => t in s.inFlight
    case SetEntry(_, _, now) => s.clock <= now
  }

  function Step<K(==, !new), V(!new)>(s: State<K, V>, ev: Event<K, V>, cfg: Config): State<K, V>
    requires Enabled(s, ev) && cfg.maxEntries >= 1
  {
    match ev
    case BeginGet(t, key, now) =>
      (match Read(s.entries, key, now)
       case Stale(observed) => s.(clock := now, inFlight := s.inFlight[t := Observation(key, observed)])
       case _ => s.(clock := now))
    case FinishGet(t) =>
      s.(entries := Cleanup(s.entries, s.inFlight[t].key, s.inFlight[t].expires), inFlight := s.inFlight - {t})
    case SetEntry(key, value, now) =>
      s.(clock := now, entries := Insert(s.entries, key, value, now, cfg.ttl, cfg.maxEntries))
  }

  /** The state after a history of events starting from an empty cache, if the history is possible. */
  function After<K(==, !new), V(!new)>(start: Time, history: seq<Event<K, V>>, cfg: Config): (r: Option<State<K, V>>)
    requires cfg.maxEntries >= 1
  {
    if history == [] then Some(State([], map[], start))
    else
      var before := After(start, history[..|history| - 1], cfg);
      var last := history[|history| - 1];
      if before.Some? && Enabled(before.value, last) then Some(Step(before.value, last, cfg)) else None
  }

  /** The latest `set` of a key in a history: its value and when it was made. */
  function LastSet<K(==), V>(history: seq<Event<K, V>>, key: K): Option<(V, Time)> {
    if history == [] then None
    else
      var last := history[|history| - 1];
      if last.SetEntry? && last.key == key then Some((last.value, last.now)) else LastSet(history[..|history| - 1], key)
  }

  ghost predicate Invariant<K(!new), V(!new)>(s: State<K, V>, history: seq<Event<K, V>>, cfg: Config) {
    && DistinctKeys(s.entries) && |s.entries| <= cfg.maxEntries
    && AscendingExpiry(s.entries)
    && (forall e :: e in s.entries ==> LastSet(history, e.key) == Some((e.value, e.expires - cfg.ttl)))
    && (forall e :: e in s.entries ==> e.expires - cfg.ttl <= s.clock)
    && (forall t :: t in s.inFlight ==> s.inFlight[t].expires <= s.clock)
  }

  lemma CleanupKeeps<K(!new), V(!new)>(es: seq<Entry<K, V>>, key: K, observed: Time)
    ensures var r := Cleanup(es, key, observed);
            && |r| <= |es| && (forall e :: e in r ==> e in es)
            && (DistinctKeys(es) ==> DistinctKeys(r)) && (AscendingExpiry(es) ==> AscendingExpiry(r))
  {
    WithoutPreserves(es, key);
  }

  lemma StepKeepsInvariant<K(!new), V(!new)>(s: State<K, V>, history: seq<Event<K, V>>, ev: Event<K, V>, cfg: Config)
    requires cfg.maxEntries >= 1 && Invariant(s, history, cfg) && Enabled(s, ev)
    ensures Invariant(Step(s, ev, cfg), history + [ev], cfg)
  {
    assert (history + [ev])[..|history|] == history;
    match ev
    case BeginGet(t, key, now) =>
    case FinishGet(t) => CleanupKeeps(s.entries, s.inFlight[t].key, s.inFlight[t].expires);
    case SetEntry(key, value, now) => SetKeepsInvariant(s, history, key, value, now, cfg);
  }

  lemma SetKeepsInvariant<K(!new), V(!new)>(s: State<K, V>, history: seq<Event<K, V>>, key: K, value: V, now: Time, cfg: Config)
    requires cfg.maxEntries >= 1 && Invariant(s, history, cfg) && s.clock <= now
    ensures Invariant(Step(s, SetEntry(key, value, now), cfg), history + [SetEntry(key, value, now)], cfg)
  {
    assert (history + [SetEntry(key, value, now)])[..|history|] == history;
    InsertKeeps(s.entries, key, value, now, cfg.ttl, cfg.maxEntries);
  }

  /**
   * Every interleaving keeps the size bound, non-decreasing expiries in insertion order, and only entries
   * that carry the latest value set for their key with that set's expiry.
   */
  lemma {:induction false} RunKeepsInvariant<K(!new), V(!new)>(start: Time, history: seq<Event<K, V>>, cfg: Config)
    requires cfg.maxEntries >= 1 && After(start, history, cfg).Some?
    ensures Invariant(After(start, history, cfg).value, history, cfg)
  {
    if history != [] {
      var n := |history| - 1;
      RunKeepsInvariant(start, history[..n], cfg);
      StepKeepsInvariant(After(start, history[..n], cfg).value, history[..n], history[n], cfg);
      assert history[..n] + [history[n]] == history;
    }
  }

  /** A `get` that returns a value returns the latest `set` of its key, made less than one TTL ago. */
  lemma GetReturnsLatestSet<K(!new), V(!new)>(start: Time, history: seq<Event<K, V>>, cfg: Config, t: nat, key: K, now: Time)
    requires cfg.maxEntries >= 1 && After(start, history, cfg).Some?
    requires Enabled(After(start, history, cfg).value, BeginGet(t, key, now))
    requires Read(After(start, history, cfg).value.entries, key, now).Fresh?
    ensures match LastSet(history, key)
            case None => false
            case Some((value, at)) =>
              Read(After(start, history, cfg).value.entries, key, now) == Fresh(value) && at <= now < at + cfg.ttl
  {
    RunKeepsInvariant(start, history, cfg);
    assert Find(After(start, history, cfg).value.entries, key).value in After(start, history, cfg).value.entries;
  }

  /** What is set is read for one lifetime, when nothing else is set. */
  lemma SetIsRead<K(!new), V(!new)>(s: State<K, V>, key: K, value: V, now: Time, later: Time, cfg: Config)
    requires cfg.maxEntries >= 1 && DistinctKeys(s.entries) && s.clock <= now <= later < now + cfg.ttl
    ensures var s' := Step(s, SetEntry(key, value, now), cfg);
            s'.clock == now && s'.inFlight == s.inFlight && DistinctKeys(s'.entries) && Read(s'.entries, key, later) == Fresh(value)
  {
    InsertKeeps(s.entries, key, value, now, cfg.ttl, cfg.maxEntries);
    FindUnique(Insert(s.entries, key, value, now, cfg.ttl, cfg.maxEntries), Entry(key, value, now + cfg.ttl));
  }

  /** A get whose two phases nothing comes between removes an expired entry of its key, and nothing else. */
  lemma UndisturbedGet<K(!new), V(!new)>(s: State<K, V>, t: nat, key: K, now: Time, cfg: Config)
    requires cfg.maxEntries >= 1 && Enabled(s, BeginGet(t, key, now))
    ensures var begun := Step(s, BeginGet(t, key, now), cfg);
            if Read(s.entries, key, now).Stale? then
              Enabled(begun, Event<K, V>.FinishGet(t)) && Step(begun, FinishGet(t), cfg) == s.(entries := Without(s.entries, key), clock := now)
            else begun == s.(clock := now)
  {
    var begun := Step(s, BeginGet(t, key, now), cfg);
    assert t in begun.inFlight ==> begun.inFlight - {t} == s.inFlight;
  }

  /**
   * The cleanup phase removes nothing that is still live, whatever ran since the read phase; and an entry it
   * leaves under its key is newer than the one it observed.
   */
  lemma CleanupRemovesOnlyExpired<K(!new), V(!new)>(start: Time, history: seq<Event<K, V>>, cfg: Config, t: nat)
    requires cfg.maxEntries >= 1 && After(start, history, cfg).Some?
    requires Enabled(After(start, history, cfg).value, Event<K, V>.FinishGet(t))
    ensures var s := After(start, history, cfg).value;
            var s' := Step(s, FinishGet(t), cfg);
            && (forall e :: e in s.entries && e !in s'.entries ==> e.expires <= s.clock)
            && (forall e :: e in s'.entries && e.key == s.inFlight[t].key ==> e.expires > s.inFlight[t].expires)
  {
    RunKeepsInvariant(start, history, cfg);
    var s := After(start, history, cfg).value;
    var seen := s.inFlight[t];
    forall e | e in s.entries && e.key == seen.key ensures Find(s.entries, seen.key) == Some(e) {
      FindUnique(s.entries, e);
    }
  }
}
