/** How requests use the experiment caches: bulk name resolution, and refresh after successful writes. */
module ExperimentCaches {
  import opened Wrappers
  import opened TimedEntries
  import opened LookupCache
  import opened GenerationCache
  import opened Collections
  import opened Strings

  /** Storage lookup by name: an id, nothing, or a resolution error. */
  type Lookup = NameKey -> Result<Option<string>, ()>

  /** Every cached id is what storage would answer, which is what a quiet cache guarantees. */
  ghost predicate ConsistentWith(es: Items, lookup: Lookup) {
    DistinctKeys(es) && forall e :: e in es ==> lookup(e.key) == Ok(Some(e.value))
  }

  /** An answer for a key: what storage says, or the id of a live cached entry. */
  ghost predicate AnswerFor(es: Items, key: NameKey, lookup: Lookup, now: Time, answer: Option<string>) {
    || lookup(key) == Ok(answer)
    || (answer.Some? && exists e :: e in es && e.key == key && e.expires > now && answer.value == e.value)
  }

  /** The entries are some of those before, or hold what storage says. */
  ghost predicate Grown(before: Items, es: Items, lookup: Lookup) {
    DistinctKeys(es) && forall e :: e in es ==> e in before || lookup(e.key) == Ok(Some(e.value))
  }

  lemma AnswerBefore(before: Items, es: Items, key: NameKey, lookup: Lookup, now: Time, answer: Option<string>)
    requires Grown(before, es, lookup) && AnswerFor(es, key, lookup, now, answer)
    ensures AnswerFor(before, key, lookup, now, answer)
  {
  }

  /** The ids among some answers, in order. */
  function IdsGiven(answers: seq<Option<string>>): seq<string> {
    if answers == [] then []
    else
      var front, last := IdsGiven(answers[..|answers| - 1]), answers[|answers| - 1];
      if last.Some? then front + [last.value] else front
  }

  /** One answer for each key, in order. */
  ghost predicate AnswersFor(es: Items, keys: seq<NameKey>, lookup: Lookup, now: Time, answers: seq<Option<string>>) {
    |answers| == |keys| && forall j :: 0 <= j < |keys| ==> AnswerFor(es, keys[j], lookup, now, answers[j])
  }

  function KeysOf(workspace: Option<string>, names: seq<string>): (keys: seq<NameKey>)
    ensures |keys| == |names|
  {
    seq(|names|, i requires 0 <= i < |names| => NameKey(workspace, names[i]))
  }

  /** Some requested name cannot be resolved. */
  ghost predicate Unresolvable(workspace: Option<string>, names: seq<string>, lookup: Lookup) {
    exists name :: name in names && lookup(NameKey(workspace, name)).Err?
  }

  ghost predicate IsIdOf(workspace: Option<string>, names: seq<string>, lookup: Lookup, id: string) {
    exists name :: name in names && lookup(NameKey(workspace, name)) == Ok(Some(id))
  }

  /** `resolve` with a storage that may raise: a live cached id if it is usable, otherwise what storage answers. */
  method ResolveOne(cache: ExperimentIdLookupCache, key: NameKey, lookup: Lookup, now: Time)
    returns (r: Result<Option<string>, ()>)
    requires cache.Valid()
    modifies cache.base
    ensures cache.Valid()
    ensures var hit := AfterGet(old(cache.base.entries), key, now).1; r == if hit.Some? && hit.value != "" then Ok(hit) else lookup(key)
    ensures r.Ok? ==> AnswerFor(old(cache.base.entries), key, lookup, now, r.value)
    ensures Grown(old(cache.base.entries), cache.base.entries, lookup)
    ensures old(ConsistentWith(cache.base.entries, lookup)) && lookup(key) != Ok(Some("")) ==>
              ConsistentWith(cache.base.entries, lookup) && r == lookup(key)
  {
    var hit, token := cache.BeginResolve(key, now);
    ApplyKeepsDistinct(old(cache.base.entries), key, now);
    if Usable(hit) {
      return Ok(hit);
    }
    r := lookup(key);
    if r.Err? {
      return;
    }
    ghost var before := cache.base.entries;
    cache.EndResolve(key, r.value, token, now);
    if r.value.Some? {
      InsertKeeps(before, key, r.value.value, now, cache.base.cfg.ttl, cache.base.cfg.maxEntries);
      InsertAddsOne(before, key, r.value.value, now, cache.base.cfg.ttl, cache.base.cfg.maxEntries);
    }
  }

  /** The ids storage has for the names, in order. */
  function IdsInOrder(workspace: Option<string>, names: seq<string>, lookup: Lookup): (r: seq<string>)
    ensures forall id :: id in r <==> IsIdOf(workspace, names, lookup, id)
  {
    if names == [] then []
    else
      var front, last := names[..|names| - 1], lookup(NameKey(workspace, names[|names| - 1]));
      assert names == front + [names[|names| - 1]];
      assert forall id :: IsIdOf(workspace, front, lookup, id) ==> IsIdOf(workspace, names, lookup, id);
      if last.Ok? && last.value.Some? then IdsInOrder(workspace, front, lookup) + [last.value.value] else IdsInOrder(workspace, front, lookup)
  }

  /** Where the loop stands: the answers so far, the ids among them, and the cache; with one that agreed, storage's answers. */
  ghost predicate Resolved(before: Items, es: Items, keys: seq<NameKey>, lookup: Lookup, now: Time, answers: seq<Option<string>>, ids: seq<string>, agrees: bool) {
    && Grown(before, es, lookup) && AnswersFor(before, keys, lookup, now, answers) && ids == IdsGiven(answers)
    && (agrees ==> ConsistentWith(es, lookup) && forall j :: 0 <= j < |keys| ==> lookup(keys[j]) == Ok(answers[j]))
  }

  lemma OneMoreResolved(
      before: Items, es: Items, es': Items, keys: seq<NameKey>, key: NameKey, lookup: Lookup, now: Time,
      answers: seq<Option<string>>, answer: Option<string>, ids: seq<string>, agrees: bool)
    requires Resolved(before, es, keys, lookup, now, answers, ids, agrees)
    requires Grown(es, es', lookup) && AnswerFor(es, key, lookup, now, answer)
    requires agrees ==> ConsistentWith(es', lookup) && lookup(key) == Ok(answer)
    ensures Resolved(before, es', keys + [key], lookup, now, answers + [answer], if answer.Some? then ids + [answer.value] else ids, agrees)
  {
    AnswerBefore(before, es, key, lookup, now, answer);
    assert (answers + [answer])[..|answers|] == answers;
  }

  /** With storage's answers, the ids are those storage has. */
  lemma {:induction false} StoredIds(workspace: Option<string>, names: seq<string>, lookup: Lookup, answers: seq<Option<string>>)
    requires |answers| == |names| && forall j :: 0 <= j < |names| ==> lookup(NameKey(workspace, names[j])) == Ok(answers[j])
    ensures IdsGiven(answers) == IdsInOrder(workspace, names, lookup)
  {
    if names != [] {
      StoredIds(workspace, names[..|names| - 1], lookup, answers[..|names| - 1]);
    }
  }

  /** What a cache that agrees with storage gives. */
  ghost predicate StorageGives(workspace: Option<string>, names: seq<string>, lookup: Lookup, r: Result<seq<string>, ()>) {
    && (r.Err? <==> Unresolvable(workspace, names, lookup))
    && (r.Ok? ==> r.value == Dedupe(IdsInOrder(workspace, Dedupe(names), lookup)))
    && (r.Ok? ==> forall id :: id in r.value <==> IsIdOf(workspace, names, lookup, id))
  }

  lemma AllResolved(workspace: Option<string>, names: seq<string>, lookup: Lookup, answers: seq<Option<string>>)
    requires |answers| == |Dedupe(names)| && forall j :: 0 <= j < |answers| ==> lookup(NameKey(workspace, Dedupe(names)[j])) == Ok(answers[j])
    ensures StorageGives(workspace, names, lookup, Ok(Dedupe(IdsGiven(answers))))
  {
    StoredIds(workspace, Dedupe(names), lookup, answers);
    forall name | name in names ensures lookup(NameKey(workspace, name)).Ok? {
      assert name in Dedupe(names);
    }
    forall id ensures IsIdOf(workspace, Dedupe(names), lookup, id) <==> IsIdOf(workspace, names, lookup, id) { }
  }

  /** The ids are those of an answer for each key, each given once. */
  ghost predicate Answered(es: Items, keys: seq<NameKey>, lookup: Lookup, now: Time, ids: seq<string>) {
    exists answers :: AnswersFor(es, keys, lookup, now, answers) && ids == Dedupe(IdsGiven(answers))
  }

  lemma ResolvedIsAnswered(
      before: Items, es: Items, workspace: Option<string>, names: seq<string>, lookup: Lookup, now: Time,
      answers: seq<Option<string>>, ids: seq<string>, agrees: bool)
    requires Resolved(before, es, KeysOf(workspace, Dedupe(names)), lookup, now, answers, ids, agrees)
    ensures Answered(before, KeysOf(workspace, Dedupe(names)), lookup, now, Dedupe(ids))
    ensures agrees ==> StorageGives(workspace, names, lookup, Ok(Dedupe(ids)))
  {
    if agrees {
      AllResolved(workspace, names, lookup, answers);
    }
  }

  /** The cache agrees with storage, and storage has no empty id. */
  ghost predicate Agrees(es: Items, lookup: Lookup) {
    ConsistentWith(es, lookup) && forall key :: lookup(key) != Ok(Some(""))
  }

  /**
   * `resolve_experiment_ids_from_names`: each distinct name, in order, is answered by a live cached id or by
   * storage, and each id found is given once. A cache that agrees with storage changes nothing: then it fails
   * exactly when some name is unresolvable, and otherwise yields the ids that storage has.
   */
  method ResolveExperimentIds(cache: ExperimentIdLookupCache, workspace: Option<string>, names: seq<string>, lookup: Lookup, now: Time)
    returns (r: Result<seq<string>, ()>)
    requires cache.Valid()
    modifies cache.base
    ensures cache.Valid() && Grown(old(cache.base.entries), cache.base.entries, lookup)
    ensures r.Err? ==> Unresolvable(workspace, names, lookup)
    ensures r.Ok? ==> Answered(old(cache.base.entries), KeysOf(workspace, Dedupe(names)), lookup, now, r.value)
    ensures old(Agrees(cache.base.entries, lookup)) ==> Agrees(cache.base.entries, lookup) && StorageGives(workspace, names, lookup, r)
  {
    ghost var before := cache.base.entries;
    ghost var agrees := Agrees(before, lookup);
    var distinct := Dedupe(names);
    ghost var keys := KeysOf(workspace, distinct);
    var ids: seq<string> := [];
    ghost var answers: seq<Option<string>> := [];
    for i := 0 to |distinct|
      invariant cache.Valid() && Resolved(before, cache.base.entries, keys[..i], lookup, now, answers, ids, agrees)
    {
      ghost var es := cache.base.entries;
      var id := ResolveOne(cache, NameKey(workspace, distinct[i]), lookup, now);
      if id.Err? {
        assert distinct[i] in names;
        return Err(());
      }
      OneMoreResolved(before, es, cache.base.entries, keys[..i], keys[i], lookup, now, answers, id.value, ids, agrees);
      answers := answers + [id.value];
      assert keys[..i] + [keys[i]] == keys[..i + 1];
      if id.value.Some? {
        ids := ids + [id.value.value];
      }
    }
    assert keys[..|distinct|] == keys && keys == KeysOf(workspace, Dedupe(names));
    r := Ok(Dedupe(ids));
    ResolvedIsAnswered(before, cache.base.entries, workspace, names, lookup, now, answers, ids, agrees);
  }

  // ----- After a successful write -----

  const EXPERIMENT_ID_TO_NAME := "experiment_id_to_name"
  const NEW_EXPERIMENT_NAME := "new_experiment_name"

  /** What the middleware passes on about a finished request; the two parameters, stripped, may be absent. */
  datatype Write = Write(path: string, status: int, parserIds: set<string>, experimentId: Option<string>, newName: Option<string>)

  predicate IsDelete(w: Write) {
    w.path == "/api/2.0/mlflow/experiments/delete" || w.path == "/ajax-api/2.0/mlflow/experiments/delete"
  }

  predicate IsRename(w: Write) {
    {EXPERIMENT_ID_TO_NAME, NEW_EXPERIMENT_NAME} <= w.parserIds
  }

  /** A delete that succeeded, by its path. */
  ghost predicate Deletes(w: Write) {
    w.status < 400 && w.path in {"/api/2.0/mlflow/experiments/delete", "/ajax-api/2.0/mlflow/experiments/delete"}
  }

  /** A rename that succeeded, by the parsers of its rules: for the id of the experiment, and for its new name. */
  ghost predicate Renames(w: Write) {
    w.status < 400 && "experiment_id_to_name" in w.parserIds && "new_experiment_name" in w.parserIds
  }

  /** `update_experiment_name_cache`: the ids are cleared in any case; the name is set if it and the id are usable. */
  method UpdateExperimentNameCache(ids: ExperimentIdLookupCache, names: NameLookupCache<string, string>, id: string, name: string, now: Time)
    requires ids.Valid() && names.Valid() && ids.base as object != names
    modifies ids, ids.base, names
    ensures ids.Valid() && names.Valid()
    ensures ids.generation == old(ids.generation) + 1 && ids.base.entries == []
    ensures Strip(id) == "" || Strip(name) == "" ==> names.entries == old(names.entries)
    ensures Strip(id) != "" && Strip(name) != "" ==>
              NameSet(old(names.entries), names.entries, Strip(id), Strip(name), now, names.cfg)
  {
    ids.Clear();
    var cleanId, cleanName := Strip(id), Strip(name);
    if cleanId == "" || cleanName == "" {
      return;
    }
    StoreName(names, cleanId, cleanName, now);
  }

  /** The name is stored under the id, as the cache stores it, and is what a lookup finds. */
  ghost predicate NameSet(before: seq<Entry<string, string>>, after: seq<Entry<string, string>>, id: string, name: string, now: Time, cfg: Settings)
    requires cfg.maxEntries >= 1
  {
    after == Apply(before, Op.Set(id, name, now), cfg).0 && Find(after, id) == Some(Entry(id, name, now + cfg.ttl))
  }

  method StoreName(names: NameLookupCache<string, string>, id: string, name: string, now: Time)
    requires names.Valid()
    modifies names
    ensures names.Valid() && NameSet(old(names.entries), names.entries, id, name, now, names.cfg)
  {
    SetIsFound(names.entries, id, name, now, names.cfg);
    names.Set(id, name, now);
  }

  lemma SetIsFound(es: seq<Entry<string, string>>, key: string, value: string, now: Time, cfg: Settings)
    requires cfg.maxEntries >= 1 && DistinctKeys(es)
    ensures Find(Apply(es, Op.Set(key, value, now), cfg).0, key) == Some(Entry(key, value, now + cfg.ttl))
  {
    InsertKeeps(es, key, value, now, cfg.ttl, cfg.maxEntries);
    FindUnique(TimedEntries.Insert(es, key, value, now, cfg.ttl, cfg.maxEntries), Entry(key, value, now + cfg.ttl));
  }

  /** Request parameters arrive stripped, and empty ones count as absent. */
  predicate Stripped(s: Option<string>) {
    s.Some? ==> s.value != "" && Strip(s.value) == s.value
  }

  /**
   * `apply_response_cache_updates`: the id cache is cleared, and its generation advanced, exactly after the
   * writes that change names; afterwards the name cache holds nothing stale for the experiment written.
   */
  method ApplyResponseCacheUpdates(ids: ExperimentIdLookupCache, names: NameLookupCache<string, string>, w: Write, now: Time)
    requires ids.Valid() && names.Valid() && ids.base as object != names
    requires Stripped(w.experimentId) && Stripped(w.newName)
    modifies ids, ids.base, names
    ensures ids.Valid() && names.Valid()
    ensures Deletes(w) || Renames(w) ==> ids.generation > old(ids.generation) && ids.base.entries == []
    ensures !Deletes(w) && !Renames(w) ==>
              ids.generation == old(ids.generation) && ids.base.entries == old(ids.base.entries) && names.entries == old(names.entries)
    ensures Renames(w) && w.experimentId.Some? && w.newName.Some?
            ==> Find(names.entries, w.experimentId.value) == Some(Entry(w.experimentId.value, w.newName.value, now + names.cfg.ttl))
    ensures Renames(w) && (w.experimentId.None? || w.newName.None?) ==> names.entries == []
    ensures Deletes(w) && !Renames(w) && w.experimentId.Some?
            ==> names.entries == Without(old(names.entries), w.experimentId.value)
    ensures Deletes(w) && !Renames(w) && w.experimentId.None? ==> names.entries == old(names.entries)
  {
    if w.status >= 400 {
      return;
    }
    if IsDelete(w) {
      ids.Clear();
      if w.experimentId.Some? {
        names.Invalidate(w.experimentId.value);
      }
    }
    if IsRename(w) {
      if w.experimentId.None? || w.newName.None? {
        ids.Clear();
        names.Clear();
        return;
      }
      UpdateExperimentNameCache(ids, names, w.experimentId.value, w.newName.value, now);
    }
  }
}
