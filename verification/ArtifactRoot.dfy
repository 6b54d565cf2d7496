/**
 * Where a workspace's artifacts go (`_resolve_artifact_root_from_config`), and the shared Secret cache being
 * created once, on first use (`_ensure_secret_cache`).
 */
module ArtifactRoot {
  import opened Wrappers
  import opened Strings
  import opened ArtifactPath

  // ----- The root -----

  /** The two settings of a workspace's MLflowConfig. */
  datatype Setting = Setting(path: Option<string>, secret: Option<string>)

  datatype RootError = UnsupportedSecret | NoBucket | BadPath(error: PathError)

  const CONNECTION_SECRET := "mlflow-artifact-connection"

  predicate Given(s: Option<string>) {
    s.Some? && s.value != ""
  }

  /** The root, and whether the workspace prefix is still to be appended; `bucket` is the Secret's. */
  function Root(fallback: Option<string>, setting: Option<Setting>, bucket: Option<string>, append: (string, string) -> string)
    : Result<(Option<string>, bool), RootError>
  {
    if setting.None? || !Given(setting.value.secret) then Ok((fallback, true))
    else if setting.value.secret.value != CONNECTION_SECRET then Err(UnsupportedSecret)
    else if !Given(bucket) then Err(NoBucket)
    else if !Given(setting.value.path) || Strip(setting.value.path.value) == "" then Ok((bucket, false))
    else
      match Validated(Strip(setting.value.path.value))
      case Err(e) => Err(BadPath(e))
      case Ok(None) => Ok((bucket, false))
      case Ok(Some(path)) => Ok((Some(append(bucket.value, path)), false))
  }

  /** Without an override, and with one that cannot be served: the fallback, another Secret, a Secret without a bucket. */
  lemma OverrideIsExact(fallback: Option<string>, setting: Option<Setting>, bucket: Option<string>, append: (string, string) -> string)
    ensures var root := Root(fallback, setting, bucket, append);
            var overridden := setting.Some? && setting.value.secret.Some? && setting.value.secret != Some("");
            && (!overridden ==> root == Ok((fallback, true)))
            && (overridden && setting.value.secret != Some("mlflow-artifact-connection") ==> root == Err(UnsupportedSecret))
            && (overridden && setting.value.secret == Some("mlflow-artifact-connection") ==>
                  (root == Err(NoBucket) <==> bucket.None? || bucket == Some("")) && (root.Ok? ==> !root.value.1))
  {
  }

  /**
   * With an override in place, the root is an error exactly when the configured path has a backslash, is
   * absolute, or climbs above the bucket at any point; otherwise it is the bucket, extended by where the path
   * leads, a path that has only names as components.
   */
  lemma RootStaysInBucket(fallback: Option<string>, setting: Setting, bucket: string, append: (string, string) -> string)
    requires setting.secret == Some("mlflow-artifact-connection") && bucket != ""
    ensures var root, path := Root(fallback, Some(setting), Some(bucket), append), if setting.path.Some? then Strip(setting.path.value) else "";
            var location := Location(Split(path, '/'), 0);
            && (root.Err? <==> path != "" && ('\\' in path || path[0] == '/' || StepsAbove(Split(path, '/'))))
            && (path != "" && root.Ok? ==>
                  && root.value == (Some(if location == [] then bucket else append(bucket, Join(location, '/'))), false)
                  && forall c :: c in location ==> IsName(c))
            && (path == "" ==> root == Ok((Some(bucket), false)))
  {
    var path := if setting.path.Some? then Strip(setting.path.value) else "";
    if path != "" {
      ValidPathLeads(path);
    }
  }

  lemma ValidPathLeads(path: string)
    requires path != ""
    ensures var location := Location(Split(path, '/'), 0);
            match Validated(path)
            case Err(_) => '\\' in path || path[0] == '/' || StepsAbove(Split(path, '/'))
            case Ok(valid) =>
              && '\\' !in path && path[0] != '/' && !StepsAbove(Split(path, '/'))
              && valid == (if location == [] then None else Some(Join(location, '/'))) && forall c :: c in location ==> IsName(c)
  {
    ValidatorIsExact(path);
    if Validated(path).Ok? && Validated(path).value.Some? {
      JoinOfSplit(Validated(path).value.value, '/');
    }
  }

  // ----- One shared cache -----

  /** Where a thread is in `_ensure_secret_cache`; caches are numbered as they are created. */
  datatype Phase = Start | Locking | Locked | Finished(cache: nat)

  datatype State = State(cache: Option<nat>, created: nat, holder: Option<nat>, phases: map<nat, Phase>)

  /** The unlocked look, taking the lock, and the locked look, whose construction may fail. */
  datatype Event = Look(t: nat) | Take(t: nat) | Settle(t: nat, fails: bool)

  function PhaseOf(s: State, t: nat): Phase {
    if t in s.phases then s.phases[t] else Start
  }

  predicate Enabled(s: State, e: Event) {
    match e
    case Look(t) => PhaseOf(s, t).Start?
    case Take(t) => PhaseOf(s, t).Locking? && s.holder.None?
    case Settle(t, _) => PhaseOf(s, t).Locked?
  }

  function Step(s: State, e: Event): State {
    match e
    case Look(t) => s.(phases := s.phases[t := if s.cache.Some? then Finished(s.cache.value) else Locking])
    case Take(t) => s.(holder := Some(t), phases := s.phases[t := Locked])
    case Settle(t, fails) =>
      if s.cache.Some? then s.(holder := None, phases := s.phases[t := Finished(s.cache.value)])
      else if fails then s.(holder := None, phases := s.phases[t := Start])
      else s.(cache := Some(s.created), created := s.created + 1, holder := None, phases := s.phases[t := Finished(s.created)])
  }

  ghost predicate Legal(s: State, run: seq<Event>)
    decreases |run|
  {
    run == [] || (Enabled(s, run[0]) && Legal(Step(s, run[0]), run[1..]))
  }

  function After(s: State, run: seq<Event>): State
    decreases |run|
  {
    if run == [] then s else After(Step(s, run[0]), run[1..])
  }

  const INITIAL := State(None, 0, None, map[])

  /** At most one cache exists, every finished thread has it, and a thread inside the lock holds it. */
  ghost predicate Shared(s: State) {
    && (s.created == 0 || s.created == 1) && (s.cache == if s.created == 1 then Some(0) else None)
    && (forall t: nat :: PhaseOf(s, t).Finished? ==> s.cache == Some(PhaseOf(s, t).cache))
    && (forall t: nat :: PhaseOf(s, t).Locked? <==> s.holder == Some(t))
  }

  lemma StepKeepsShared(s: State, e: Event)
    requires Shared(s) && Enabled(s, e)
    ensures Shared(Step(s, e))
  {
    var s' := Step(s, e);
    forall t: nat ensures PhaseOf(s', t) == if t == e.t then PhaseOf(s', e.t) else PhaseOf(s, t) { }
  }

  lemma {:induction false} RunKeepsShared(s: State, run: seq<Event>)
    requires Shared(s) && Legal(s, run)
    ensures Shared(After(s, run))
    decreases |run|
  {
    if run != [] {
      StepKeepsShared(s, run[0]);
      RunKeepsShared(Step(s, run[0]), run[1..]);
    }
  }

  /** A thread that nothing comes between gets the cache there is, or creates it; if that fails it is back at the start. */
  lemma UndisturbedEnsure(s: State, t: nat)
    requires Shared(s) && PhaseOf(s, t).Start? && s.holder.None?
    ensures Enabled(s, Look(t))
    ensures var looked := Step(s, Look(t));
            if s.cache.Some? then looked == s.(phases := s.phases[t := Finished(s.cache.value)])
            else
              && Enabled(looked, Take(t)) && Enabled(Step(looked, Take(t)), Settle(t, false)) && Enabled(Step(looked, Take(t)), Settle(t, true))
              && var got, failed := Step(Step(looked, Take(t)), Settle(t, false)), Step(Step(looked, Take(t)), Settle(t, true));
                 && got.cache == Some(0) && got.created == 1 && got.holder.None? && PhaseOf(got, t) == Finished(0)
                 && failed.cache.None? && failed.created == 0 && failed.holder.None? && PhaseOf(failed, t) == Start
  {
  }

  /** However threads interleave, and however often construction fails, at most one cache is created and everyone gets it. */
  lemma OneCacheIsShared(run: seq<Event>, t: nat, u: nat)
    requires Legal(INITIAL, run)
    ensures var s := After(INITIAL, run);
            s.created <= 1 && (PhaseOf(s, t).Finished? && PhaseOf(s, u).Finished? ==> PhaseOf(s, t) == PhaseOf(s, u) && s.cache == Some(PhaseOf(s, t).cache))
  {
    RunKeepsShared(INITIAL, run);
  }
}
