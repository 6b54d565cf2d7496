/**
 * The ordered dictionary of `key -> (value, expires_at)` behind both time-limited caches.
 * A dictionary is the sequence of its items, oldest insertion first.
 */
module TimedEntries {
  import opened Wrappers

  /** `time.time()`: seconds; only its order and sums matter. */
  type Time = real

  datatype Entry<K, V> = Entry(key: K, value: V, expires: Time)

  ghost predicate DistinctKeys<K, V>(es: seq<Entry<K, V>>) {
    forall i, j :: 0 <= i < j < |es| ==> es[i].key != es[j].key
  }

  ghost predicate AscendingExpiry<K, V>(es: seq<Entry<K, V>>) {
    forall i, j :: 0 <= i < j < |es| ==> es[i].expires <= es[j].expires
  }

  /** `entries.get(key)`. */
  function Find<K(==, !new), V(!new)>(es: seq<Entry<K, V>>, key: K): (r: Option<Entry<K, V>>)
    ensures r.Some? ==> r.value in es && r.value.key == key
    ensures r.None? ==> forall e :: e in es ==> e.key != key
  {
    if es == [] then None
    else if es[0].key == key then Some(es[0])
    else Find(es[1..], key)
  }

  /** With distinct keys, any entry under a key is the one `Find` returns. */
  lemma {:induction false} FindUnique<K(!new), V(!new)>(es: seq<Entry<K, V>>, e: Entry<K, V>)
    requires DistinctKeys(es) && e in es
    ensures Find(es, e.key) == Some(e)
  {
    if es[0].key == e.key {
      var i :| 0 <= i < |es| && es[i] == e;
      assert i == 0;
    } else {
      assert e in es[1..];
      FindUnique(es[1..], e);
    }
  }

  /** The entries satisfying `keep`, in their original order. */
  function Keep<K(!new), V(!new)>(es: seq<Entry<K, V>>, keep: Entry<K, V> -> bool): (r: seq<Entry<K, V>>)
    ensures forall e :: e in r <==> e in es && keep(e)
    ensures |r| <= |es|
  {
    if es == [] then []
    else if keep(es[0]) then [es[0]] + Keep(es[1..], keep)
    else Keep(es[1..], keep)
  }

  /** Dropping entries preserves every order in which the entries were stored. */
  lemma {:induction false} KeepPreservesOrder<K(!new), V(!new)>(
      es: seq<Entry<K, V>>, keep: Entry<K, V> -> bool, rel: (Entry<K, V>, Entry<K, V>) -> bool)
    requires forall i, j :: 0 <= i < j < |es| ==> rel(es[i], es[j])
    ensures forall i, j :: 0 <= i < j < |Keep(es, keep)| ==> rel(Keep(es, keep)[i], Keep(es, keep)[j])
  {
    if es != [] {
      KeepPreservesOrder(es[1..], keep, rel);
      var rest := Keep(es[1..], keep);
      forall e | e in rest ensures rel(es[0], e) {
        var k :| 0 <= k < |es[1..]| && es[1..][k] == e;
        assert e == es[k + 1];
      }
    }
  }

  /** `entries.pop(key, None)`. */
  function Without<K(==, !new), V(!new)>(es: seq<Entry<K, V>>, key: K): (r: seq<Entry<K, V>>)
    ensures forall e :: e in r <==> e in es && e.key != key
    ensures |r| <= |es|
  {
    Keep(es, (e: Entry<K, V>) => e.key != key)
  }

  /** What reaping at `now` leaves behind. */
  function Unexpired<K(!new), V(!new)>(es: seq<Entry<K, V>>, now: Time): (r: seq<Entry<K, V>>)
    ensures forall e :: e in r <==> e in es && e.expires > now
    ensures |r| <= |es|
  {
    Keep(es, (e: Entry<K, V>) => e.expires > now)
  }

  lemma WithoutPreserves<K(!new), V(!new)>(es: seq<Entry<K, V>>, key: K)
    ensures DistinctKeys(es) ==> DistinctKeys(Without(es, key))
    ensures AscendingExpiry(es) ==> AscendingExpiry(Without(es, key))
  {
    var keep := (e: Entry<K, V>) => e.key != key;
    if DistinctKeys(es) {
      KeepPreservesOrder(es, keep, (a: Entry<K, V>, b: Entry<K, V>) => a.key != b.key);
    }
    if AscendingExpiry(es) {
      KeepPreservesOrder(es, keep, (a: Entry<K, V>, b: Entry<K, V>) => a.expires <= b.expires);
    }
  }

  lemma UnexpiredPreserves<K(!new), V(!new)>(es: seq<Entry<K, V>>, now: Time)
    ensures DistinctKeys(es) ==> DistinctKeys(Unexpired(es, now))
    ensures AscendingExpiry(es) ==> AscendingExpiry(Unexpired(es, now))
  {
    var keep := (e: Entry<K, V>) => e.expires > now;
    if DistinctKeys(es) {
      KeepPreservesOrder(es, keep, (a: Entry<K, V>, b: Entry<K, V>) => a.key != b.key);
    }
    if AscendingExpiry(es) {
      KeepPreservesOrder(es, keep, (a: Entry<K, V>, b: Entry<K, V>) => a.expires <= b.expires);
    }
  }

  /** The reaping loop: collect the expired keys, then pop them one by one. */
  method ReapExpired<K(==, !new), V(!new)>(es: seq<Entry<K, V>>, now: Time) returns (r: seq<Entry<K, V>>)
    requires DistinctKeys(es)
    ensures r == Unexpired(es, now)
  {
    var expiredKeys: seq<K> := [];
    for i := 0 to |es|
      invariant forall k :: k in expiredKeys <==> exists j :: 0 <= j < i && es[j].key == k && es[j].expires <= now
    {
      if es[i].expires <= now {
        expiredKeys := expiredKeys + [es[i].key];
      }
    }
    r := es;
    KeepAll(es, (e: Entry<K, V>) => e.key !in expiredKeys[..0]);
    for i := 0 to |expiredKeys|
      invariant r == Keep(es, (e: Entry<K, V>) => e.key !in expiredKeys[..i])
    {
      KeepTwice(es, (e: Entry<K, V>) => e.key !in expiredKeys[..i], (e: Entry<K, V>) => e.key != expiredKeys[i],
                (e: Entry<K, V>) => e.key !in expiredKeys[..i + 1]);
      r := Without(r, expiredKeys[i]);
    }
    forall e | e in es ensures e.key !in expiredKeys[..|expiredKeys|] <==> e.expires > now {
      assert expiredKeys[..|expiredKeys|] == expiredKeys;
      var m :| 0 <= m < |es| && es[m] == e;
      if e.key in expiredKeys {
        var j :| 0 <= j < |es| && es[j].key == e.key && es[j].expires <= now;
        assert j == m;
      }
    }
    KeepAgree(es, (e: Entry<K, V>) => e.key !in expiredKeys[..|expiredKeys|], (e: Entry<K, V>) => e.expires > now);
  }

  lemma {:induction false} KeepAll<K(!new), V(!new)>(es: seq<Entry<K, V>>, keep: Entry<K, V> -> bool)
    requires forall e :: e in es ==> keep(e)
    ensures Keep(es, keep) == es
  {
    if es != [] { KeepAll(es[1..], keep); }
  }

  lemma {:induction false} KeepAgree<K(!new), V(!new)>(es: seq<Entry<K, V>>, p: Entry<K, V> -> bool, q: Entry<K, V> -> bool)
    requires forall e :: e in es ==> p(e) == q(e)
    ensures Keep(es, p) == Keep(es, q)
  {
    if es != [] { KeepAgree(es[1..], p, q); }
  }

  lemma {:induction false} KeepTwice<K(!new), V(!new)>(
      es: seq<Entry<K, V>>, p: Entry<K, V> -> bool, q: Entry<K, V> -> bool, both: Entry<K, V> -> bool)
    requires forall e :: e in es ==> (both(e) <==> p(e) && q(e))
    ensures Keep(Keep(es, p), q) == Keep(es, both)
  {
    if es != [] {
      KeepTwice(es[1..], p, q, both);
      var rest := Keep(es[1..], p);
      if p(es[0]) {
        assert ([es[0]] + rest)[1..] == rest;
      }
    }
  }

  /** Popping the oldest items until a new one fits below `maxEntries`. */
  function Evict<K, V>(es: seq<Entry<K, V>>, maxEntries: nat): (r: seq<Entry<K, V>>)
    requires maxEntries >= 1
    ensures |r| < maxEntries
    ensures r == if |es| < maxEntries then es else es[|es| - (maxEntries - 1)..]
  {
    if |es| >= maxEntries then Evict(es[1..], maxEntries) else es
  }

  /** The whole effect of `set`: reap, replace, evict the oldest, append. */
  function Insert<K(==, !new), V(!new)>(
      es: seq<Entry<K, V>>, key: K, value: V, now: Time, ttl: Time, maxEntries: nat): (r: seq<Entry<K, V>>)
    requires maxEntries >= 1
  {
    Evict(Without(Unexpired(es, now), key), maxEntries) + [Entry(key, value, now + ttl)]
  }

  /**
   * What a `set` at `now` leaves: the new entry last, every other entry an unexpired old one under
   * another key, no duplicates, and no more than `maxEntries`.
   */
  lemma InsertKeeps<K(!new), V(!new)>(
      es: seq<Entry<K, V>>, key: K, value: V, now: Time, ttl: Time, maxEntries: nat)
    requires maxEntries >= 1 && DistinctKeys(es)
    ensures var r := Insert(es, key, value, now, ttl, maxEntries);
            && 1 <= |r| <= maxEntries && r[|r| - 1] == Entry(key, value, now + ttl)
            && DistinctKeys(r)
            && (forall i :: 0 <= i < |r| - 1 ==> r[i] in es && r[i].key != key && r[i].expires > now)
            && (AscendingExpiry(es) && (forall e :: e in es ==> e.expires <= now + ttl) ==> AscendingExpiry(r))
  {
    UnexpiredPreserves(es, now);
    WithoutPreserves(Unexpired(es, now), key);
    AdmitKeeps(Without(Unexpired(es, now), key), Entry(key, value, now + ttl), maxEntries);
  }

  /** Evicting the oldest and appending a fresh entry. */
  lemma AdmitKeeps<K(!new), V(!new)>(live: seq<Entry<K, V>>, e: Entry<K, V>, maxEntries: nat)
    requires maxEntries >= 1 && DistinctKeys(live) && forall d :: d in live ==> d.key != e.key
    ensures var r := Evict(live, maxEntries) + [e];
            && 1 <= |r| <= maxEntries && r[|r| - 1] == e && DistinctKeys(r)
            && (forall i :: 0 <= i < |r| - 1 ==> r[i] in live)
            && (AscendingExpiry(live) && (forall d :: d in live ==> d.expires <= e.expires) ==> AscendingExpiry(r))
  {
    var r := Evict(live, maxEntries) + [e];
    forall i | 0 <= i < |r| - 1 ensures r[i] in live { }
  }

  /** A `set` introduces only its own entry. */
  lemma InsertAddsOne<K(!new), V(!new)>(es: seq<Entry<K, V>>, key: K, value: V, now: Time, ttl: Time, maxEntries: nat)
    requires maxEntries >= 1 && DistinctKeys(es)
    ensures forall e :: e in Insert(es, key, value, now, ttl, maxEntries) ==> e in es || e == Entry(key, value, now + ttl)
  {
    InsertKeeps(es, key, value, now, ttl, maxEntries);
    var r := Insert(es, key, value, now, ttl, maxEntries);
    forall e | e in r ensures e in es || e == Entry(key, value, now + ttl) {
      var i :| 0 <= i < |r| && r[i] == e;
    }
  }

  /** The insertion loop of both caches' `set`, after `now` has been read. */
  method InsertInPlace<K(==, !new), V(!new)>(
      es: seq<Entry<K, V>>, key: K, value: V, now: Time, ttl: Time, maxEntries: nat)
    returns (r: seq<Entry<K, V>>)
    requires maxEntries >= 1 && DistinctKeys(es)
    ensures r == Insert(es, key, value, now, ttl, maxEntries)
  {
    r := ReapExpired(es, now);
    r := Without(r, key);
    ghost var live := r;
    while |r| >= maxEntries
      invariant Evict(r, maxEntries) == Evict(live, maxEntries)
    {
      r := r[1..];
    }
    r := r + [Entry(key, value, now + ttl)];
  }
}
