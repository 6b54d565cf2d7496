/**
 * Request threads looking names up beside a list/watch cache (`get_namespace`, `get_config`): the snapshot
 * first, then the API server, with commits, changes of access and other writers of the cache in between.
 * Every answer given is recorded, with the reason for it.
 */
module LiveLookups {
  import opened Wrappers
  import opened ClusterHistory

  /** Whether the resource can be listed: its definition may be missing, or listing it forbidden. */
  datatype Access = Listable | Missing | Denied

  /** How names are read; `optional` resources may be missing, and are then reloaded on request. */
  datatype Resource<!V, !I> = Resource(extract: Extract<V, I>, excluded: string -> bool, optional: bool)

  /** Where a call is: a request sent, a response evaluated at a version, or between two steps of its own. */
  datatype Phase = Reloading | ReloadServed(at: nat) | Reloaded | Rechecking | Looking | LookupServed(at: nat)

  datatype Call = Call(name: string, since: nat, phase: Phase)

  /** Why a call was answered: from the snapshot, by exclusion, by the lookup evaluated at a version, or by the refusal of a list. */
  datatype Cause = Hit | Excluded | LookedUp(at: nat) | Refused(at: nat)

  datatype Record<I> = Record(name: string, since: nat, until: nat, answer: Option<I>, cause: Cause)

  /**
   * The server's history and the access at each of its versions; the cache, with the version at which the
   * refusal it last went by was served; lists of other threads under way; calls; and the answers given.
   */
  datatype State<V, I> = State(
    history: seq<Change<V>>,
    access: seq<Access>,
    shown: map<string, I>,
    available: bool,
    refusedAt: nat,
    others: map<nat, nat>,
    calls: map<nat, Call>,
    log: seq<Record<I>>)

  datatype Event<V, I> =
    | Commit(change: Change<V>)
    | SetAccess(access: Access)
    | Shows(items: map<string, I>)       // the watch thread writes the snapshot
    | StreamRefused                      // the watch thread's stream, while the resource cannot be listed
    | Retries                            // the watch thread sets the flag again, before it has listed
    | OtherListServed(w: nat)            // a list of the watch thread or of another request
    | OtherListArrives(w: nat)
    | Begin(t: nat, name: string)
    | ServeReload(t: nat)
    | ReloadArrives(t: nat)
    | ReadFlag(t: nat)
    | Recheck(t: nat)
    | ServeLookup(t: nat)
    | LookupArrives(t: nat)
    | Fail(t: nat)                       // the call raises an error

  predicate InPhase<V, I>(s: State<V, I>, t: nat, phase: Phase) {
    t in s.calls && s.calls[t].phase == phase
  }

  predicate Enabled<V, I>(s: State<V, I>, e: Event<V, I>) {
    match e
    case Begin(t, _) => t !in s.calls
    case OtherListServed(w) => w !in s.others
    case OtherListArrives(w) => w in s.others && s.others[w] < |s.access| && s.others[w] <= |s.history|
    case ServeReload(t) => InPhase(s, t, Reloading)
    case ReloadArrives(t) => t in s.calls && s.calls[t].phase.ReloadServed? && s.calls[t].phase.at < |s.access| && s.calls[t].phase.at <= |s.history|
    case ReadFlag(t) => InPhase(s, t, Reloaded)
    case Recheck(t) => InPhase(s, t, Rechecking)
    case ServeLookup(t) => InPhase(s, t, Looking)
    case LookupArrives(t) => t in s.calls && s.calls[t].phase.LookupServed? && s.calls[t].phase.at < |s.access| && s.calls[t].phase.at <= |s.history|
    case Fail(t) => t in s.calls
    case StreamRefused => |s.access| > 0 && !s.access[|s.access| - 1].Listable?
    case Retries => !s.available
    case SetAccess(_) => |s.access| > 0
    case _ => |s.access| > 0
  }

  function Now<V, I>(s: State<V, I>): nat {
    |s.history|
  }

  /** What a list evaluated at a version shows under a name. */
  function ViewOf<V, I>(h: seq<Change<V>>, at: nat, extract: Extract<V, I>): map<string, I>
    requires at <= |h|
  {
    View(StateAt(h, at), extract)
  }

  function Named<I>(view: map<string, I>, name: string): Option<I> {
    if name in view then Some(view[name]) else None
  }

  /** A list evaluated at a version installed in the cache; a refusal clears the cache of an optional resource. */
  function Installed<V, I>(s: State<V, I>, at: nat, k: Resource<V, I>): State<V, I>
    requires at < |s.access| && at <= |s.history|
  {
    if s.access[at].Listable? then s.(shown := ViewOf(s.history, at, k.extract), available := true)
    else if k.optional then s.(shown := map[], available := false, refusedAt := at)
    else s
  }

  function Moved<V, I>(s: State<V, I>, t: nat, phase: Phase): State<V, I>
    requires t in s.calls
  {
    s.(calls := s.calls[t := s.calls[t].(phase := phase)])
  }

  /** The call ends with an answer. */
  function Answered<V, I>(s: State<V, I>, t: nat, answer: Option<I>, cause: Cause): State<V, I>
    requires t in s.calls
  {
    var c := s.calls[t];
    s.(calls := s.calls - {t}, log := s.log + [Record(c.name, c.since, Now(s), answer, cause)])
  }

  function Step<V, I>(s: State<V, I>, e: Event<V, I>, k: Resource<V, I>): State<V, I>
    requires Enabled(s, e)
  {
    match e
    case Commit(c) => s.(history := s.history + [c], access := s.access + [s.access[|s.access| - 1]])
    case SetAccess(a) => s.(history := s.history + [Unrelated], access := s.access + [a])
    case Shows(items) => s.(shown := items)
    case StreamRefused => s.(shown := map[], available := !k.optional, refusedAt := Now(s))
    case Retries => s.(available := true)
    case OtherListServed(w) => s.(others := s.others[w := Now(s)])
    case OtherListArrives(w) => Installed(s, s.others[w], k).(others := s.others - {w})
    case Begin(t, name) =>
      var begun := s.(calls := s.calls[t := Call(name, Now(s), if k.optional && !s.available then Reloading else Looking)]);
      if name in s.shown then Answered(begun, t, Some(s.shown[name]), Hit)
      else if k.excluded(name) then Answered(begun, t, None, Excluded)
      else begun
    case ServeReload(t) => Moved(s, t, ReloadServed(Now(s)))
    case ReloadArrives(t) => Moved(Installed(s, s.calls[t].phase.at, k), t, Reloaded)
    case ReadFlag(t) => if s.available then Moved(s, t, Rechecking) else Answered(s, t, None, Refused(s.refusedAt))
    case Recheck(t) =>
      if s.calls[t].name in s.shown then Answered(s, t, Some(s.shown[s.calls[t].name]), Hit) else Moved(s, t, Looking)
    case ServeLookup(t) => Moved(s, t, LookupServed(Now(s)))
    case LookupArrives(t) =>
      var at := s.calls[t].phase.at;
      if s.access[at].Listable? then Answered(s, t, Named(ViewOf(s.history, at, k.extract), s.calls[t].name), LookedUp(at))
      else if s.access[at].Missing? && k.optional then Answered(s, t, None, LookedUp(at))
      else s.(calls := s.calls - {t})
    case Fail(t) => s.(calls := s.calls - {t})
  }

  function Start<V, I>(access: Access): State<V, I> {
    State([], [access], map[], true, 0, map[], map[], [])
  }

  function After<V, I>(access: Access, events: seq<Event<V, I>>, k: Resource<V, I>): Option<State<V, I>> {
    if events == [] then Some(Start(access))
    else
      var before := After(access, events[..|events| - 1], k);
      var last := events[|events| - 1];
      if before.Some? && Enabled(before.value, last) then Some(Step(before.value, last, k)) else None
  }

  // ----- Why answers are given -----

  /** At this version the live state has nothing readable under the name. */
  ghost predicate AbsentAt<V, I>(h: seq<Change<V>>, at: nat, name: string, k: Resource<V, I>) {
    at <= |h| && name !in ViewOf(h, at, k.extract)
  }

  /** The recorded reason for a negative answer is a fact of the history, and so is an answer looked up. */
  ghost predicate Explained<V, I>(h: seq<Change<V>>, access: seq<Access>, r: Record<I>, k: Resource<V, I>) {
    && r.since <= r.until <= |h|
    && (r.answer.None? ==>
          match r.cause
          case Hit => false
          case Excluded => k.excluded(r.name)
          case LookedUp(at) =>
            r.since <= at <= r.until && at < |access|
            && if access[at].Listable? then AbsentAt(h, at, r.name, k) else access[at].Missing? && k.optional
          case Refused(at) => k.optional && at <= r.until && at < |access| && !access[at].Listable?)
    && (r.answer.Some? ==>
          match r.cause
          case Hit => true
          case LookedUp(at) => r.since <= at <= r.until && at < |access| && access[at].Listable? && PresentAt(h, at, r.name, r.answer.value, k)
          case _ => false)
  }

  /** At this version the live state reads so under the name. */
  ghost predicate PresentAt<V, I>(h: seq<Change<V>>, at: nat, name: string, info: I, k: Resource<V, I>) {
    at <= |h| && name in StateAt(h, at) && k.extract(name, StateAt(h, at)[name]) == Some(info)
  }

  ghost predicate Invariant<V, I>(s: State<V, I>, k: Resource<V, I>) {
    && |s.access| == |s.history| + 1
    && s.refusedAt <= Now(s) && (!s.available ==> k.optional && !s.access[s.refusedAt].Listable?)
    && (forall w :: w in s.others ==> s.others[w] <= Now(s))
    && (forall t :: t in s.calls ==> s.calls[t].since <= Now(s) && PhaseOk(s, s.calls[t], k))
    && (forall i :: 0 <= i < |s.log| ==> Explained(s.history, s.access, s.log[i], k))
  }

  predicate PhaseOk<V, I>(s: State<V, I>, c: Call, k: Resource<V, I>) {
    match c.phase
    case ReloadServed(at) => k.optional && c.since <= at <= Now(s)
    case LookupServed(at) => c.since <= at <= Now(s)
    case Looking => true
    case _ => k.optional
  }

  lemma {:induction false} HistoryKeepsReasons<V, I>(h: seq<Change<V>>, access: seq<Access>, c: Change<V>, a: Access, r: Record<I>, k: Resource<V, I>)
    requires Explained(h, access, r, k)
    ensures Explained(h + [c], access + [a], r, k)
  {
    if r.cause.LookedUp? && access[r.cause.at].Listable? {
      PastIsFixed(h, [c], r.cause.at);
    }
  }

  lemma CommitKeepsInvariant<V, I>(s: State<V, I>, c: Change<V>, a: Access, k: Resource<V, I>)
    requires Invariant(s, k)
    ensures Invariant(s.(history := s.history + [c], access := s.access + [a]), k)
  {
    var s' := s.(history := s.history + [c], access := s.access + [a]);
    forall i | 0 <= i < |s.log| ensures Explained(s'.history, s'.access, s'.log[i], k) {
      HistoryKeepsReasons(s.history, s.access, c, a, s.log[i], k);
    }
  }

  lemma AnswerKeepsInvariant<V, I>(s: State<V, I>, t: nat, answer: Option<I>, cause: Cause, k: Resource<V, I>)
    requires Invariant(s, k) && t in s.calls
    requires Explained(s.history, s.access, Record(s.calls[t].name, s.calls[t].since, Now(s), answer, cause), k)
    ensures Invariant(Answered(s, t, answer, cause), k)
  {
  }

  lemma BeginKeepsInvariant<V, I>(s: State<V, I>, t: nat, name: string, k: Resource<V, I>)
    requires Invariant(s, k) && t !in s.calls
    ensures Invariant(Step(s, Begin(t, name), k), k)
  {
    var begun := s.(calls := s.calls[t := Call(name, Now(s), if k.optional && !s.available then Reloading else Looking)]);
    assert Invariant(begun, k);
    if name in s.shown {
      AnswerKeepsInvariant(begun, t, Some(s.shown[name]), Hit, k);
    } else if k.excluded(name) {
      AnswerKeepsInvariant(begun, t, None, Excluded, k);
    }
  }

  lemma LookupKeepsInvariant<V, I>(s: State<V, I>, t: nat, k: Resource<V, I>)
    requires Invariant(s, k) && Enabled(s, LookupArrives(t))
    ensures Invariant(Step(s, LookupArrives(t), k), k)
  {
    var at := s.calls[t].phase.at;
    if s.access[at].Listable? {
      AnswerKeepsInvariant(s, t, Named(ViewOf(s.history, at, k.extract), s.calls[t].name), LookedUp(at), k);
    } else if s.access[at].Missing? && k.optional {
      AnswerKeepsInvariant(s, t, None, LookedUp(at), k);
    }
  }

  lemma InstallKeepsInvariant<V, I>(s: State<V, I>, at: nat, k: Resource<V, I>)
    requires Invariant(s, k) && at <= Now(s)
    ensures Invariant(Installed(s, at, k), k)
  {
  }

  lemma MoveKeepsInvariant<V, I>(s: State<V, I>, t: nat, phase: Phase, k: Resource<V, I>)
    requires Invariant(s, k) && t in s.calls && PhaseOk(s, s.calls[t].(phase := phase), k)
    ensures Invariant(Moved(s, t, phase), k)
  {
  }

  lemma OwnStepKeepsInvariant<V, I>(s: State<V, I>, e: Event<V, I>, k: Resource<V, I>)
    requires Invariant(s, k) && Enabled(s, e) && (e.ServeReload? || e.ReloadArrives? || e.ReadFlag? || e.Recheck? || e.ServeLookup?)
    ensures Invariant(Step(s, e, k), k)
  {
    match e
    case ServeReload(t) => MoveKeepsInvariant(s, t, ReloadServed(Now(s)), k);
    case ReloadArrives(t) =>
      InstallKeepsInvariant(s, s.calls[t].phase.at, k);
      MoveKeepsInvariant(Installed(s, s.calls[t].phase.at, k), t, Reloaded, k);
    case ReadFlag(t) =>
      if s.available {
        MoveKeepsInvariant(s, t, Rechecking, k);
      } else {
        AnswerKeepsInvariant(s, t, None, Refused(s.refusedAt), k);
      }
    case Recheck(t) =>
      if s.calls[t].name in s.shown {
        AnswerKeepsInvariant(s, t, Some(s.shown[s.calls[t].name]), Hit, k);
      } else {
        MoveKeepsInvariant(s, t, Looking, k);
      }
    case ServeLookup(t) => MoveKeepsInvariant(s, t, LookupServed(Now(s)), k);
  }

  lemma StepKeepsInvariant<V, I>(s: State<V, I>, e: Event<V, I>, k: Resource<V, I>)
    requires Invariant(s, k) && Enabled(s, e)
    ensures Invariant(Step(s, e, k), k)
  {
    match e
    case Commit(c) => CommitKeepsInvariant(s, c, s.access[|s.access| - 1], k);
    case SetAccess(a) => CommitKeepsInvariant(s, Unrelated, a, k);
    case OtherListArrives(w) => InstallKeepsInvariant(s, s.others[w], k);
    case Begin(t, name) => BeginKeepsInvariant(s, t, name, k);
    case LookupArrives(t) => LookupKeepsInvariant(s, t, k);
    case Shows(_) => case StreamRefused => case Retries => case OtherListServed(_) => case Fail(_) =>
    case ServeReload(_) => OwnStepKeepsInvariant(s, e, k);
    case ReloadArrives(_) => OwnStepKeepsInvariant(s, e, k);
    case ReadFlag(_) => OwnStepKeepsInvariant(s, e, k);
    case Recheck(_) => OwnStepKeepsInvariant(s, e, k);
    case ServeLookup(_) => OwnStepKeepsInvariant(s, e, k);
  }

  /** Over every run, every negative answer given has its recorded reason. */
  lemma {:induction false} AnswersAreExplained<V, I>(access: Access, events: seq<Event<V, I>>, k: Resource<V, I>)
    requires After(access, events, k).Some?
    ensures Invariant(After(access, events, k).value, k)
  {
    if events != [] {
      AnswersAreExplained(access, events[..|events| - 1], k);
      StepKeepsInvariant(After(access, events[..|events| - 1], k).value, events[|events| - 1], k);
    }
  }

  /** At some version during the call the name was absent, or the optional resource could not be listed. */
  ghost predicate FreshlyNothing<V, I>(s: State<V, I>, r: Record<I>, k: Resource<V, I>) {
    || k.excluded(r.name)
    || exists v: nat :: r.since <= v <= r.until && v < |s.access| && (AbsentAt(s.history, v, r.name, k) || (k.optional && !s.access[v].Listable?))
  }

  /** The answer goes by the refusal of a list that was evaluated before the call began. */
  predicate ByStaleRefusal<I>(r: Record<I>) {
    r.cause.Refused? && r.cause.at < r.since
  }

  /**
   * Negative answers are fresh: a call that was answered with nothing is for an excluded name, or at some
   * version between its begin and its end the live state had no such object, or listing was refused. The one
   * exception is an answer that goes by an older refusal; only an optional resource has it.
   */
  lemma NegativeAnswersAreFresh<V, I>(access: Access, events: seq<Event<V, I>>, k: Resource<V, I>, i: nat)
    requires After(access, events, k).Some? && i < |After(access, events, k).value.log|
    ensures var s := After(access, events, k).value;
            var r := s.log[i];
            && (r.answer.None? && !FreshlyNothing(s, r, k) ==> ByStaleRefusal(r))
            && (r.answer.None? && ByStaleRefusal(r) ==> k.optional && r.cause.at < |s.access| && !s.access[r.cause.at].Listable?)
  {
    AnswersAreExplained(access, events, k);
    var s := After(access, events, k).value;
    assert Explained(s.history, s.access, s.log[i], k);
  }

  // ----- A call that nothing comes between -----

  /** The next step of a call's own. */
  function Own<V, I>(t: nat, phase: Phase): Event<V, I> {
    match phase
    case Reloading => ServeReload(t)
    case ReloadServed(_) => ReloadArrives(t)
    case Reloaded => ReadFlag(t)
    case Rechecking => Recheck(t)
    case Looking => ServeLookup(t)
    case LookupServed(_) => LookupArrives(t)
  }

  /** After so many steps of its own, or fewer if it ends. */
  function Alone<V, I>(s: State<V, I>, t: nat, n: nat, k: Resource<V, I>): State<V, I>
    decreases n
  {
    if n == 0 || t !in s.calls || !Enabled(s, Own(t, s.calls[t].phase)) then s
    else Alone(Step(s, Own(t, s.calls[t].phase), k), t, n - 1, k)
  }

  /** The call has ended with this answer, the first after these. */
  ghost predicate Ended<V, I>(s: State<V, I>, t: nat, log: seq<Record<I>>, name: string, answer: Option<I>, cause: Cause) {
    t !in s.calls && s.log == log + [Record(name, Now(s), Now(s), answer, cause)]
  }

  lemma LooksUpAlone<V, I>(s: State<V, I>, t: nat, n: nat, k: Resource<V, I>)
    requires |s.access| == |s.history| + 1 && InPhase(s, t, Looking) && s.calls[t].since == Now(s) && n >= 2
    ensures var end, now, name := Alone(s, t, n, k), Now(s), s.calls[t].name;
            && end.shown == s.shown && end.available == s.available
            && match s.access[now]
               case Listable => Ended(end, t, s.log, name, Named(View(StateAt(s.history, now), k.extract), name), LookedUp(now))
               case Missing => if k.optional then Ended(end, t, s.log, name, None, LookedUp(now)) else t !in end.calls && end.log == s.log
               case Denied => t !in end.calls && end.log == s.log
  {
    var served := Step(s, ServeLookup(t), k);
    assert Alone(s, t, n, k) == Alone(served, t, n - 1, k);
    var end := Step(served, LookupArrives(t), k);
    assert Alone(served, t, n - 1, k) == Alone(end, t, n - 2, k);
    assert Alone(end, t, n - 2, k) == end;
  }

  lemma ReloadsAlone<V, I>(s: State<V, I>, t: nat, n: nat, k: Resource<V, I>)
    requires |s.access| == |s.history| + 1 && k.optional && InPhase(s, t, Reloading) && n >= 2
    ensures InPhase(Installed(s, Now(s), k).(calls := s.calls[t := s.calls[t].(phase := Reloaded)]), t, Reloaded)
    ensures Alone(s, t, n, k) == Alone(Installed(s, Now(s), k).(calls := s.calls[t := s.calls[t].(phase := Reloaded)]), t, n - 2, k)
  {
    var served := Step(s, ServeReload(t), k);
    assert Alone(s, t, n, k) == Alone(served, t, n - 1, k);
    var back := Step(served, ReloadArrives(t), k);
    assert Alone(served, t, n - 1, k) == Alone(back, t, n - 2, k);
    assert back.calls == s.calls[t := s.calls[t].(phase := Reloaded)];
    assert back == Installed(s, Now(s), k).(calls := s.calls[t := s.calls[t].(phase := Reloaded)]);
  }

  /** The last steps of a call that has reloaded and was refused, or found the resource again. */
  lemma ChecksAlone<V, I>(s: State<V, I>, t: nat, n: nat, k: Resource<V, I>)
    requires |s.access| == |s.history| + 1 && InPhase(s, t, Reloaded) && n >= 4
    ensures !s.available ==> Alone(s, t, n, k) == Answered(s, t, None, Refused(s.refusedAt))
    ensures s.available && s.calls[t].name in s.shown ==> Alone(s, t, n, k) == Answered(Moved(s, t, Rechecking), t, Some(s.shown[s.calls[t].name]), Hit)
    ensures s.available && s.calls[t].name !in s.shown ==> Alone(s, t, n, k) == Alone(s.(calls := s.calls[t := s.calls[t].(phase := Looking)]), t, n - 2, k)
  {
    var read := Step(s, ReadFlag(t), k);
    assert Alone(s, t, n, k) == Alone(read, t, n - 1, k);
    if s.available {
      var checked := Step(read, Recheck(t), k);
      assert Alone(read, t, n - 1, k) == Alone(checked, t, n - 2, k);
      assert s.calls[t].name !in s.shown ==> checked == s.(calls := s.calls[t := s.calls[t].(phase := Looking)]);
    }
  }

  lemma ReloadedCall<V, I>(s: State<V, I>, t: nat, k: Resource<V, I>)
    requires |s.access| == |s.history| + 1 && InPhase(s, t, Reloaded) && s.calls[t].since == Now(s)
    requires s.available ==> s.access[Now(s)].Listable? && s.shown == View(StateAt(s.history, Now(s)), k.extract)
    ensures var end, name := Alone(s, t, 4, k), s.calls[t].name;
            && end.shown == s.shown && end.available == s.available
            && if !s.available then Ended(end, t, s.log, name, None, Refused(s.refusedAt))
               else Ended(end, t, s.log, name, Named(s.shown, name), if name in s.shown then Hit else LookedUp(Now(s)))
  {
    ChecksAlone(s, t, 4, k);
    if s.available && s.calls[t].name !in s.shown {
      var looking := s.(calls := s.calls[t := s.calls[t].(phase := Looking)]);
      LooksUpAlone(looking, t, 2, k);
    }
  }

  lemma ReloadingCall<V, I>(s: State<V, I>, t: nat, k: Resource<V, I>)
    requires |s.access| == |s.history| + 1 && k.optional && InPhase(s, t, Reloading) && s.calls[t].since == Now(s)
    ensures var end, now, name := Alone(s, t, 6, k), Now(s), s.calls[t].name;
            var view := View(StateAt(s.history, now), k.extract);
            if !s.access[now].Listable? then Ended(end, t, s.log, name, None, Refused(now)) && end.shown == map[] && !end.available
            else Ended(end, t, s.log, name, Named(view, name), if name in view then Hit else LookedUp(now)) && end.shown == view && end.available
  {
    ReloadsAlone(s, t, 6, k);
    var back := Installed(s, Now(s), k).(calls := s.calls[t := s.calls[t].(phase := Reloaded)]);
    ReloadedCall(back, t, k);
  }

  /**
   * A call that nothing comes between is answered from the snapshot, by exclusion, or by the state of now: an
   * optional resource that is not available is first listed again, which leaves its view in the snapshot, or a
   * refusal, which is the answer; a call that is refused otherwise raises an error.
   */
  lemma UndisturbedCall<V, I>(s: State<V, I>, t: nat, name: string, k: Resource<V, I>)
    requires |s.access| == |s.history| + 1 && t !in s.calls
    ensures var end, now := Alone(Step(s, Begin(t, name), k), t, 6, k), Now(s);
            var view := View(StateAt(s.history, now), k.extract);
            if name in s.shown then Ended(end, t, s.log, name, Some(s.shown[name]), Hit)
            else if k.excluded(name) then Ended(end, t, s.log, name, None, Excluded)
            else if k.optional && !s.available then
              if !s.access[now].Listable? then Ended(end, t, s.log, name, None, Refused(now)) && end.shown == map[] && !end.available
              else Ended(end, t, s.log, name, Named(view, name), if name in view then Hit else LookedUp(now)) && end.shown == view && end.available
            else if s.access[now].Listable? then Ended(end, t, s.log, name, Named(view, name), LookedUp(now))
            else if s.access[now].Missing? && k.optional then Ended(end, t, s.log, name, None, LookedUp(now))
            else t !in end.calls && end.log == s.log
  {
    var begun := Step(s, Begin(t, name), k);
    if name !in s.shown && !k.excluded(name) {
      if k.optional && !s.available {
        ReloadingCall(begun, t, k);
      } else {
        LooksUpAlone(begun, t, 6, k);
      }
    }
  }

  // ----- A stale refusal -----

  const OPTIONAL: Resource<int, int> := Resource((name: string, value: int) => Some(value), (name: string) => false, true)

  lemma Extends(events: seq<Event<int, int>>, s: State<int, int>, e: Event<int, int>, next: State<int, int>)
    requires After(Missing, events, OPTIONAL) == Some(s) && Enabled(s, e) && Step(s, e, OPTIONAL) == next
    ensures After(Missing, events + [e], OPTIONAL) == Some(next)
  {
    assert (events + [e])[..|events|] == events;
  }

  /** Two lists are refused; one of the refusals arrives, and the other is still under way. */
  lemma RefusalUnderWay() returns (events: seq<Event<int, int>>)
    ensures After(Missing, events, OPTIONAL) == Some(State([], [Missing], map[], false, 0, map[1 := 0], map[], []))
  {
    var s0: State<int, int> := Start(Missing);
    var s1, s2 := s0.(others := map[0 := 0]), s0.(others := map[0 := 0, 1 := 0]);
    events := [];
    Extends(events, s0, OtherListServed(0), s1);
    events := events + [OtherListServed(0)];
    Extends(events, s1, OtherListServed(1), s2);
    events := events + [OtherListServed(1)];
    assert s2.others - {0} == map[1 := 0];
    Extends(events, s2, OtherListArrives(0), s0.(available := false, others := map[1 := 0]));
    events := events + [OtherListArrives(0)];
  }

  /** The resource then appears, with an object. */
  lemma ObjectAppears() returns (events: seq<Event<int, int>>)
    ensures After(Missing, events, OPTIONAL) ==
      Some(State([Unrelated, Put("a", 1)], [Missing, Listable, Listable], map[], false, 0, map[1 := 0], map[], []))
  {
    events := RefusalUnderWay();
    var s0: State<int, int> := State([], [Missing], map[], false, 0, map[1 := 0], map[], []);
    var s1 := s0.(history := [Unrelated], access := [Missing, Listable]);
    assert s0.history + [Unrelated] == [Unrelated];
    Extends(events, s0, SetAccess(Listable), s1);
    events := events + [SetAccess(Listable)];
    Extends(events, s1, Commit(Put("a", 1)), s1.(history := [Unrelated, Put("a", 1)], access := [Missing, Listable, Listable]));
    events := events + [Commit(Put("a", 1))];
  }

  /** A request for it reloads, and its own list is answered. */
  lemma RequestReloads() returns (events: seq<Event<int, int>>, s: State<int, int>)
    ensures After(Missing, events, OPTIONAL) == Some(s)
    ensures s.history == [Unrelated, Put("a", 1)] && s.access == [Missing, Listable, Listable] && s.available
    ensures s.calls == map[7 := Call("a", 2, Reloaded)] && s.others == map[1 := 0] && s.log == []
  {
    events := ObjectAppears();
    var s0: State<int, int> := State([Unrelated, Put("a", 1)], [Missing, Listable, Listable], map[], false, 0, map[1 := 0], map[], []);
    var s1, s2 := s0.(calls := map[7 := Call("a", 2, Reloading)]), s0.(calls := map[7 := Call("a", 2, ReloadServed(2))]);
    Extends(events, s0, Begin(7, "a"), s1);
    events := events + [Begin(7, "a")];
    Extends(events, s1, ServeReload(7), s2);
    events := events + [ServeReload(7)];
    s := Moved(Installed(s2, 2, OPTIONAL), 7, Reloaded);
    Extends(events, s2, ReloadArrives(7), s);
    events := events + [ReloadArrives(7)];
  }

  /** A run in which a call is answered with nothing though the object was there, and could be listed, all along. */
  lemma StaleRefusalCanAnswer()
    ensures exists events :: After(Missing, events, OPTIONAL).Some? && AnsweredStale(After(Missing, events, OPTIONAL).value)
  {
    var events, s0 := RequestReloads();
    var s1 := s0.(shown := map[], available := false, refusedAt := 0, others := map[]);
    assert s0.others - {1} == map[];
    Extends(events, s0, OtherListArrives(1), s1);
    events := events + [OtherListArrives(1)];
    var s2 := Answered(s1, 7, None, Refused(0));
    Extends(events, s1, ReadFlag(7), s2);
    events := events + [ReadFlag(7)];
    assert s2.log == [Record("a", 2, 2, None, Refused(0))];
    PresentAtTwo(s2.history);
  }

  ghost predicate AnsweredStale(s: State<int, int>) {
    |s.log| == 1 && s.log[0].answer.None? && !FreshlyNothing(s, s.log[0], OPTIONAL) && ByStaleRefusal(s.log[0])
  }

  lemma PresentAtTwo(h: seq<Change<int>>)
    requires h == [Unrelated, Put("a", 1)]
    ensures !AbsentAt(h, 2, "a", OPTIONAL)
  {
    assert StateAt(h, 2) == StateAt(h, 1)["a" := 1];
  }
}
