/**
 * The bounded name-lookup cache (`_NameLookupCache`): time-limited entries in an ordered dictionary
 * that doubles as a recency queue. Its behaviour is a function on the stored items; that function is
 * shown to refine a reference that keeps no order at all, only the moment each key was last touched.
 */
module LookupCache {
  import opened Wrappers
  import opened TimedEntries

  datatype Settings = Settings(ttl: Time, maxEntries: nat)

  datatype Op<K, V> = Get(key: K, now: Time) | Set(key: K, value: V, now: Time) | Invalidate(key: K) | Clear

  /** `get`: a live hit moves to the end, an expired one is dropped. */
  function AfterGet<K(==, !new), V(!new)>(es: seq<Entry<K, V>>, key: K, now: Time): (r: (seq<Entry<K, V>>, Option<V>)) {
    match Find(es, key)
    case None => (es, None)
    case Some(e) =>
      if e.expires > now then (Without(es, key) + [e], Some(e.value)) else (Without(es, key), None)
  }

  /** One cache operation: the items afterwards, and what `get` returns. */
  function Apply<K(==, !new), V(!new)>(es: seq<Entry<K, V>>, op: Op<K, V>, cfg: Settings): (r: (seq<Entry<K, V>>, Option<V>))
    requires cfg.maxEntries >= 1
  {
    match op
    case Get(key, now) => AfterGet(es, key, now)
    case Set(key, value, now) => (Insert(es, key, value, now, cfg.ttl, cfg.maxEntries), None)
    case Invalidate(key) => (Without(es, key), None)
    case Clear => ([], None)
  }

  class NameLookupCache<K(==, !new), V(!new)> {
    const cfg: Settings
    var entries: seq<Entry<K, V>>

    ghost predicate Valid()
      reads this
    {
      cfg.maxEntries >= 1 && DistinctKeys(entries) && |entries| <= cfg.maxEntries
    }

    constructor (cfg: Settings)
      requires cfg.maxEntries >= 1
      ensures Valid() && entries == [] && this.cfg == cfg
    {
      this.cfg := cfg;
      entries := [];
    }

    method Get(key: K, now: Time) returns (r: Option<V>)
      requires Valid()
      modifies this
      ensures Valid()
      ensures (entries, r) == Apply(old(entries), Op.Get(key, now), cfg)
    {
      ApplyKeepsValid(entries, Op.Get(key, now), cfg);
      var found := Find(entries, key);
      if found.None? {
        return None;
      }
      if found.value.expires > now {
        entries := Without(entries, key) + [found.value];
        return Some(found.value.value);
      }
      entries := Without(entries, key);
      return None;
    }

    method Set(key: K, value: V, now: Time)
      requires Valid()
      modifies this
      ensures Valid()
      ensures entries == Apply(old(entries), Op.Set(key, value, now), cfg).0
    {
      ApplyKeepsValid(entries, Op.Set(key, value, now), cfg);
      entries := InsertInPlace(entries, key, value, now, cfg.ttl, cfg.maxEntries);
    }

    method Invalidate(key: K)
      requires Valid()
      modifies this
      ensures Valid()
      ensures entries == Apply(old(entries), Op.Invalidate(key), cfg).0
    {
      ApplyKeepsValid(entries, Op.Invalidate(key), cfg);
      entries := Without(entries, key);
    }

    method Clear()
      requires Valid()
      modifies this
      ensures Valid()
      ensures entries == []
    {
      entries := [];
    }
  }

  lemma ApplyKeepsValid<K(!new), V(!new)>(es: seq<Entry<K, V>>, op: Op<K, V>, cfg: Settings)
    requires cfg.maxEntries >= 1 && DistinctKeys(es) && |es| <= cfg.maxEntries
    ensures DistinctKeys(Apply(es, op, cfg).0) && |Apply(es, op, cfg).0| <= cfg.maxEntries
  {
    match op
    case Get(key, now) =>
      WithoutPreserves(es, key);
      if Find(es, key).Some? { WithoutDropsOne(es, key); }
    case Set(key, value, now) => InsertKeeps(es, key, value, now, cfg.ttl, cfg.maxEntries);
    case Invalidate(key) => WithoutPreserves(es, key);
    case Clear =>
  }

  lemma {:induction false} WithoutDropsOne<K(!new), V(!new)>(es: seq<Entry<K, V>>, key: K)
    requires exists e :: e in es && e.key == key
    ensures |Without(es, key)| < |es|
  {
    var keep := (e: Entry<K, V>) => e.key != key;
    if es[0].key != key {
      var e :| e in es && e.key == key;
      assert e in es[1..];
      WithoutDropsOne(es[1..], key);
    }
  }

  // ----- The reference: no storage order, only touch stamps -----

  /** What the reference remembers of a key: its value, its expiry and when it was last touched. */
  datatype Slot<V> = Slot(value: V, expires: Time, touched: nat)

  datatype Reference<K, V> = Reference(slots: map<K, Slot<V>>, tick: nat)

  ghost predicate LeastRecent<K(!new), V(!new)>(slots: map<K, Slot<V>>, victim: K) {
    victim in slots && forall k :: k in slots ==> slots[victim].touched <= slots[k].touched
  }

  /** Room for one more: a full table gives up its least recently touched key. */
  ghost function MakeRoom<K(!new), V(!new)>(slots: map<K, Slot<V>>, maxEntries: nat): map<K, Slot<V>> {
    if |slots| < maxEntries then slots else map k | k in slots && !LeastRecent(slots, k) :: slots[k]
  }

  ghost function LiveOthers<K(!new), V(!new)>(slots: map<K, Slot<V>>, key: K, now: Time): map<K, Slot<V>> {
    map k | k in slots && k != key && slots[k].expires > now :: slots[k]
  }

  /** Room is made and the entry comes in as the most recently touched. */
  ghost function Admit<K(!new), V(!new)>(r: Reference<K, V>, e: Entry<K, V>, maxEntries: nat): Reference<K, V> {
    Reference(MakeRoom(r.slots, maxEntries)[e.key := Slot(e.value, e.expires, r.tick)], r.tick + 1)
  }

  ghost function RefApply<K(!new), V(!new)>(r: Reference<K, V>, op: Op<K, V>, cfg: Settings): (Reference<K, V>, Option<V>) {
    match op
    case Get(key, now) =>
      if key in r.slots && r.slots[key].expires > now then
        (Reference(r.slots[key := r.slots[key].(touched := r.tick)], r.tick + 1), Some(r.slots[key].value))
      else (Reference(r.slots - {key}, r.tick + 1), None)
    case Set(key, value, now) =>
      (Admit(Reference(LiveOthers(r.slots, key, now), r.tick), Entry(key, value, now + cfg.ttl), cfg.maxEntries), None)
    case Invalidate(key) => (Reference(r.slots - {key}, r.tick + 1), None)
    case Clear => (Reference(map[], r.tick + 1), None)
  }

  /** The items, read in order, are exactly the reference's slots from least to most recently touched. */
  ghost predicate Refines<K(!new), V(!new)>(es: seq<Entry<K, V>>, r: Reference<K, V>) {
    && (forall e :: e in es ==> e.key in r.slots && r.slots[e.key].value == e.value && r.slots[e.key].expires == e.expires)
    && (forall k :: k in r.slots ==> r.slots[k].touched < r.tick && HasKey(es, k))
    && InTouchOrder(es, r.slots)
  }

  ghost predicate HasKey<K(!new), V(!new)>(es: seq<Entry<K, V>>, key: K) {
    exists e :: e in es && e.key == key
  }

  ghost predicate InTouchOrder<K(!new), V(!new)>(es: seq<Entry<K, V>>, slots: map<K, Slot<V>>)
    requires forall e :: e in es ==> e.key in slots
  {
    forall i, j :: 0 <= i < j < |es| ==> slots[es[i].key].touched < slots[es[j].key].touched
  }

  lemma KeepInTouchOrder<K(!new), V(!new)>(es: seq<Entry<K, V>>, keep: Entry<K, V> -> bool, slots: map<K, Slot<V>>)
    requires (forall e :: e in es ==> e.key in slots) && InTouchOrder(es, slots)
    ensures InTouchOrder(Keep(es, keep), slots)
  {
    KeepPreservesOrder(es, keep, (a: Entry<K, V>, b: Entry<K, V>) =>
      a.key in slots && b.key in slots && slots[a.key].touched < slots[b.key].touched);
  }

  lemma RefinesDistinct<K(!new), V(!new)>(es: seq<Entry<K, V>>, r: Reference<K, V>)
    requires Refines(es, r)
    ensures DistinctKeys(es)
  {
  }

  ghost function KeySet<K(!new), V(!new)>(es: seq<Entry<K, V>>): set<K> {
    set e | e in es :: e.key
  }

  lemma {:induction false} DistinctCount<K(!new), V(!new)>(es: seq<Entry<K, V>>)
    requires DistinctKeys(es)
    ensures |KeySet(es)| == |es|
  {
    if es != [] {
      DistinctCount(es[1..]);
      assert es == [es[0]] + es[1..];
      assert KeySet(es) == {es[0].key} + KeySet(es[1..]);
      assert es[0].key !in KeySet(es[1..]);
    }
  }

  lemma RefinesCount<K(!new), V(!new)>(es: seq<Entry<K, V>>, r: Reference<K, V>)
    requires Refines(es, r)
    ensures |es| == |r.slots|
  {
    RefinesDistinct(es, r);
    DistinctCount(es);
    assert KeySet(es) == r.slots.Keys;
  }

  /** The storage head is the reference's unique least recently touched key. */
  lemma HeadIsLeastRecent<K(!new), V(!new)>(es: seq<Entry<K, V>>, r: Reference<K, V>, victim: K)
    requires Refines(es, r) && es != []
    ensures LeastRecent(r.slots, es[0].key)
    ensures LeastRecent(r.slots, victim) ==> victim == es[0].key
  {
    forall k | k in r.slots ensures r.slots[es[0].key].touched <= r.slots[k].touched {
      var e :| e in es && e.key == k;
      var i :| 0 <= i < |es| && es[i] == e;
    }
    if LeastRecent(r.slots, victim) {
      var e :| e in es && e.key == victim;
      var i :| 0 <= i < |es| && es[i] == e;
    }
  }

  /** Fewer items, in the same order, refine the reference restricted to their keys. */
  lemma RefinesFewer<K(!new), V(!new)>(es: seq<Entry<K, V>>, r: Reference<K, V>, fewer: seq<Entry<K, V>>, slots: map<K, Slot<V>>)
    requires Refines(es, r)
    requires forall e :: e in fewer ==> e in es && e.key in slots
    requires InTouchOrder(fewer, r.slots)
    requires forall k :: k in slots ==> k in r.slots && slots[k] == r.slots[k] && HasKey(fewer, k)
    ensures Refines(fewer, Reference(slots, r.tick))
  {
  }

  lemma RefinesWithout<K(!new), V(!new)>(es: seq<Entry<K, V>>, r: Reference<K, V>, key: K)
    requires Refines(es, r)
    ensures Refines(Without(es, key), Reference(r.slots - {key}, r.tick))
  {
    KeepInTouchOrder(es, (e: Entry<K, V>) => e.key != key, r.slots);
    forall k | k in r.slots - {key} ensures HasKey(Without(es, key), k) {
      var e :| e in es && e.key == k;
      assert e in Without(es, key);
    }
    RefinesFewer(es, r, Without(es, key), r.slots - {key});
  }

  lemma RefinesUnexpired<K(!new), V(!new)>(es: seq<Entry<K, V>>, r: Reference<K, V>, now: Time)
    requires Refines(es, r)
    ensures Refines(Unexpired(es, now), Reference(map k | k in r.slots && r.slots[k].expires > now :: r.slots[k], r.tick))
  {
    KeepInTouchOrder(es, (e: Entry<K, V>) => e.expires > now, r.slots);
    forall k | k in r.slots && r.slots[k].expires > now ensures HasKey(Unexpired(es, now), k) {
      var e :| e in es && e.key == k;
      assert e in Unexpired(es, now);
    }
    RefinesFewer(es, r, Unexpired(es, now), map k | k in r.slots && r.slots[k].expires > now :: r.slots[k]);
  }

  lemma OrderAppend<K(!new), V(!new)>(es: seq<Entry<K, V>>, slots: map<K, Slot<V>>, e: Entry<K, V>, slot: Slot<V>)
    requires (forall d :: d in es ==> d.key in slots && slots[d.key].touched < slot.touched) && e.key !in slots
    requires InTouchOrder(es, slots)
    ensures InTouchOrder(es + [e], slots[e.key := slot])
  {
    var es' := es + [e];
    forall i | 0 <= i < |es| ensures es'[i] in es { }
  }

  lemma RefinesAppend<K(!new), V(!new)>(es: seq<Entry<K, V>>, r: Reference<K, V>, e: Entry<K, V>)
    requires Refines(es, r) && e.key !in r.slots
    ensures Refines(es + [e], Reference(r.slots[e.key := Slot(e.value, e.expires, r.tick)], r.tick + 1))
  {
    var slots := r.slots[e.key := Slot(e.value, e.expires, r.tick)];
    OrderAppend(es, r.slots, e, Slot(e.value, e.expires, r.tick));
    forall k | k in slots ensures HasKey(es + [e], k) {
      if k == e.key {
        assert e in es + [e];
      } else {
        var d :| d in es && d.key == k;
        assert d in es + [e];
      }
    }
  }

  lemma RefinesTail<K(!new), V(!new)>(es: seq<Entry<K, V>>, r: Reference<K, V>)
    requires Refines(es, r) && es != []
    ensures Refines(es[1..], Reference(r.slots - {es[0].key}, r.tick))
  {
    RefinesDistinct(es, r);
    forall k | k in r.slots - {es[0].key} ensures HasKey(es[1..], k) {
      var e :| e in es && e.key == k;
      assert e in es[1..];
    }
  }

  lemma FullRoomDropsHead<K(!new), V(!new)>(es: seq<Entry<K, V>>, r: Reference<K, V>, maxEntries: nat)
    requires Refines(es, r) && 1 <= maxEntries == |es|
    ensures MakeRoom(r.slots, maxEntries) == r.slots - {es[0].key}
  {
    RefinesCount(es, r);
    forall k | k in r.slots ensures LeastRecent(r.slots, k) <==> k == es[0].key {
      HeadIsLeastRecent(es, r, k);
    }
  }

  lemma RefinesRoom<K(!new), V(!new)>(es: seq<Entry<K, V>>, r: Reference<K, V>, maxEntries: nat)
    requires Refines(es, r) && 1 <= maxEntries && |es| <= maxEntries
    ensures Refines(Evict(es, maxEntries), Reference(MakeRoom(r.slots, maxEntries), r.tick))
  {
    if |es| == maxEntries {
      FullRoomDropsHead(es, r, maxEntries);
      RefinesTail(es, r);
    } else {
      RefinesCount(es, r);
    }
  }

  /** A live hit: the key leaves its place and comes back as the most recently touched. */
  lemma TouchRefines<K(!new), V(!new)>(es: seq<Entry<K, V>>, r: Reference<K, V>, e: Entry<K, V>)
    requires Refines(es, r) && e in es
    ensures Refines(Without(es, e.key) + [e], Reference(r.slots[e.key := r.slots[e.key].(touched := r.tick)], r.tick + 1))
  {
    RefinesWithout(es, r, e.key);
    RefinesAppend(Without(es, e.key), Reference(r.slots - {e.key}, r.tick), e);
    var slot := Slot(e.value, e.expires, r.tick);
    assert (r.slots - {e.key})[e.key := slot] == r.slots[e.key := slot];
  }

  lemma GetRefines<K(!new), V(!new)>(es: seq<Entry<K, V>>, r: Reference<K, V>, key: K, now: Time, cfg: Settings)
    requires Refines(es, r) && cfg.maxEntries >= 1
    ensures Refines(AfterGet(es, key, now).0, RefApply(r, Op.Get(key, now), cfg).0)
    ensures AfterGet(es, key, now).1 == RefApply(r, Op.Get(key, now), cfg).1
  {
    var found := Find(es, key);
    if found.None? {
      assert key in r.slots ==> HasKey(es, key);
      assert r.slots - {key} == r.slots;
      TickRefines(es, r);
    } else if found.value.expires > now {
      TouchRefines(es, r, found.value);
    } else {
      RefinesWithout(es, r, key);
      TickRefines(Without(es, key), Reference(r.slots - {key}, r.tick));
    }
  }

  lemma TickRefines<K(!new), V(!new)>(es: seq<Entry<K, V>>, r: Reference<K, V>)
    requires Refines(es, r)
    ensures Refines(es, Reference(r.slots, r.tick + 1))
  {
  }

  lemma RefinesOthers<K(!new), V(!new)>(es: seq<Entry<K, V>>, r: Reference<K, V>, key: K, now: Time)
    requires Refines(es, r)
    ensures Refines(Without(Unexpired(es, now), key), Reference(LiveOthers(r.slots, key, now), r.tick))
  {
    var live := map k | k in r.slots && r.slots[k].expires > now :: r.slots[k];
    RefinesUnexpired(es, r, now);
    RefinesWithout(Unexpired(es, now), Reference(live, r.tick), key);
    assert live - {key} == LiveOthers(r.slots, key, now);
  }

  /** Making room and appending a fresh key, on both sides. */
  lemma RefinesAdmit<K(!new), V(!new)>(es: seq<Entry<K, V>>, r: Reference<K, V>, e: Entry<K, V>, maxEntries: nat)
    requires Refines(es, r) && 1 <= maxEntries && |es| <= maxEntries && e.key !in r.slots
    ensures Refines(Evict(es, maxEntries) + [e], Admit(r, e, maxEntries))
  {
    RefinesRoom(es, r, maxEntries);
    RefinesAppend(Evict(es, maxEntries), Reference(MakeRoom(r.slots, maxEntries), r.tick), e);
  }

  lemma SetRefines<K(!new), V(!new)>(es: seq<Entry<K, V>>, r: Reference<K, V>, key: K, value: V, now: Time, cfg: Settings)
    requires Refines(es, r) && cfg.maxEntries >= 1 && |es| <= cfg.maxEntries
    ensures Refines(Insert(es, key, value, now, cfg.ttl, cfg.maxEntries),
                    Admit(Reference(LiveOthers(r.slots, key, now), r.tick), Entry(key, value, now + cfg.ttl), cfg.maxEntries))
  {
    RefinesOthers(es, r, key, now);
    FewerOthers(es, r, key, now);
    SetAmongOthers(Without(Unexpired(es, now), key), Insert(es, key, value, now, cfg.ttl, cfg.maxEntries),
                   Reference(LiveOthers(r.slots, key, now), r.tick), Entry(key, value, now + cfg.ttl), cfg.maxEntries);
  }

  lemma SetAmongOthers<K(!new), V(!new)>(kept: seq<Entry<K, V>>, stored: seq<Entry<K, V>>, r: Reference<K, V>, e: Entry<K, V>, maxEntries: nat)
    requires 1 <= maxEntries && |kept| <= maxEntries && stored == Evict(kept, maxEntries) + [e]
    requires Refines(kept, r) && e.key !in r.slots
    ensures Refines(stored, Admit(r, e, maxEntries))
  {
    RefinesAdmit(kept, r, e, maxEntries);
  }

  lemma FewerOthers<K(!new), V(!new)>(es: seq<Entry<K, V>>, r: Reference<K, V>, key: K, now: Time)
    ensures |Without(Unexpired(es, now), key)| <= |es| && key !in LiveOthers(r.slots, key, now)
  {
  }

  /** One operation answers as the reference does and keeps the storage in step with it. */
  lemma StepRefines<K(!new), V(!new)>(es: seq<Entry<K, V>>, r: Reference<K, V>, op: Op<K, V>, cfg: Settings)
    requires Refines(es, r) && cfg.maxEntries >= 1 && |es| <= cfg.maxEntries
    ensures Refines(Apply(es, op, cfg).0, RefApply(r, op, cfg).0)
    ensures Apply(es, op, cfg).1 == RefApply(r, op, cfg).1
    ensures |Apply(es, op, cfg).0| <= cfg.maxEntries
  {
    RefinesDistinct(es, r);
    ApplyKeepsValid(es, op, cfg);
    match op
    case Get(key, now) => GetRefines(es, r, key, now, cfg);
    case Set(key, value, now) => SetRefines(es, r, key, value, now, cfg);
    case Invalidate(key) =>
      RefinesWithout(es, r, key);
      TickRefines(Without(es, key), Reference(r.slots - {key}, r.tick));
    case Clear =>
  }

  // ----- Whole runs -----

  function Run<K(==, !new), V(!new)>(es: seq<Entry<K, V>>, ops: seq<Op<K, V>>, cfg: Settings): (r: (seq<Entry<K, V>>, seq<Option<V>>))
    requires cfg.maxEntries >= 1
    ensures |r.1| == |ops|
  {
    if ops == [] then (es, [])
    else
      var before := Run(es, ops[..|ops| - 1], cfg);
      var last := Apply(before.0, ops[|ops| - 1], cfg);
      (last.0, before.1 + [last.1])
  }

  ghost function RefRun<K(!new), V(!new)>(r: Reference<K, V>, ops: seq<Op<K, V>>, cfg: Settings): (Reference<K, V>, seq<Option<V>>) {
    if ops == [] then (r, [])
    else
      var before := RefRun(r, ops[..|ops| - 1], cfg);
      var last := RefApply(before.0, ops[|ops| - 1], cfg);
      (last.0, before.1 + [last.1])
  }

  /** From empty, every sequence of operations gets the reference's answers and never exceeds the bound. */
  lemma {:induction false} RunRefines<K(!new), V(!new)>(ops: seq<Op<K, V>>, cfg: Settings)
    requires cfg.maxEntries >= 1
    ensures var (es, answers) := Run([], ops, cfg);
            var (r, expected) := RefRun(Reference(map[], 0), ops, cfg);
            answers == expected && Refines(es, r) && |es| <= cfg.maxEntries
  {
    if ops != [] {
      RunRefines(ops[..|ops| - 1], cfg);
      StepRefines(Run([], ops[..|ops| - 1], cfg).0, RefRun(Reference(map[], 0), ops[..|ops| - 1], cfg).0, ops[|ops| - 1], cfg);
    }
  }

  lemma RunIsDistinct<K(!new), V(!new)>(ops: seq<Op<K, V>>, cfg: Settings)
    requires cfg.maxEntries >= 1
    ensures DistinctKeys(Run([], ops, cfg).0)
  {
    RunRefines(ops, cfg);
    RefinesDistinct(Run([], ops, cfg).0, RefRun(Reference(map[], 0), ops, cfg).0);
  }

  /** The operation removes `key` or replaces its value. */
  predicate Overwrites<K(==), V>(op: Op<K, V>, key: K) {
    match op
    case Get(_, _) => false
    case Set(k, _, _) => k == key
    case Invalidate(k) => k == key
    case Clear => true
  }

  /** Operation `i` set `key` to `value` at `at`, and nothing has overwritten it since. */
  ghost predicate LatestSet<K(!new), V(!new)>(ops: seq<Op<K, V>>, i: nat, key: K, value: V, at: Time) {
    && i < |ops| && ops[i] == Op.Set(key, value, at)
    && forall j :: i < j < |ops| ==> !Overwrites(ops[j], key)
  }

  /** An operation's result holds only the entry it set and old entries it did not overwrite. */
  lemma EntryOrigin<K(!new), V(!new)>(es: seq<Entry<K, V>>, op: Op<K, V>, cfg: Settings, e: Entry<K, V>)
    requires cfg.maxEntries >= 1 && DistinctKeys(es) && e in Apply(es, op, cfg).0
    ensures (op.Set? && e == Entry(op.key, op.value, op.now + cfg.ttl)) || (e in es && !Overwrites(op, e.key))
  {
    if op.Set? {
      InsertKeeps(es, op.key, op.value, op.now, cfg.ttl, cfg.maxEntries);
    }
  }

  lemma StillLatest<K(!new), V(!new)>(ops: seq<Op<K, V>>, i: nat, key: K, value: V, at: Time)
    requires ops != [] && LatestSet(ops[..|ops| - 1], i, key, value, at) && !Overwrites(ops[|ops| - 1], key)
    ensures LatestSet(ops, i, key, value, at)
  {
    forall j | i < j < |ops| ensures !Overwrites(ops[j], key) {
      if j < |ops| - 1 { assert ops[..|ops| - 1][j] == ops[j]; }
    }
  }

  /**
   * Hits never extend a lifetime: whatever was read in between, a cached entry holds the latest value set
   * for its key and expires exactly one TTL after that set.
   */
  lemma {:induction false} LifetimeFixedBySet<K(!new), V(!new)>(ops: seq<Op<K, V>>, cfg: Settings, e: Entry<K, V>) returns (i: nat)
    requires cfg.maxEntries >= 1 && e in Run([], ops, cfg).0
    ensures LatestSet(ops, i, e.key, e.value, e.expires - cfg.ttl)
  {
    var n := |ops| - 1;
    var before := Run([], ops[..n], cfg).0;
    RunIsDistinct(ops[..n], cfg);
    EntryOrigin(before, ops[n], cfg, e);
    if ops[n].Set? && e == Entry(ops[n].key, ops[n].value, ops[n].now + cfg.ttl) {
      i := n;
    } else {
      i := LifetimeFixedBySet(ops[..n], cfg, e);
      StillLatest(ops, i, e.key, e.value, e.expires - cfg.ttl);
    }
  }

  /** So a hit at `now` returns the latest value set for its key, less than one TTL after that set. */
  lemma HitIsLatestSet<K(!new), V(!new)>(ops: seq<Op<K, V>>, cfg: Settings, key: K, now: Time)
    requires cfg.maxEntries >= 1
    requires AfterGet(Run([], ops, cfg).0, key, now).1.Some?
    ensures exists i: nat, at :: LatestSet(ops, i, key, AfterGet(Run([], ops, cfg).0, key, now).1.value, at) && now < at + cfg.ttl
  {
    var e := Find(Run([], ops, cfg).0, key).value;
    var i := LifetimeFixedBySet(ops, cfg, e);
    assert LatestSet(ops, i, key, e.value, e.expires - cfg.ttl);
  }
}
