/**
 * The writer-preferring read/write lock (`_ReadWriteLock`). Its four operations run inside one condition
 * variable; between a `wait` and the re-check of its guard a thread is asleep or woken. One step is one
 * stretch of code under the condition's lock. A thread may also leave `wait` by an exception, which runs
 * the `finally` of `acquire_write`.
 */
module ReadWriteLock {
  import opened Wrappers

  datatype Phase = Outside | AsleepReader | WokenReader | Reading | AsleepWriter | WokenWriter | Writing

  /** The lock's three counters, and where every thread is. */
  datatype State = State(readers: int, writer: bool, waitingWriters: int, phases: map<nat, Phase>)

  datatype Event = TryRead(t: nat) | LeaveRead(t: nat) | TryWrite(t: nat) | LeaveWrite(t: nat) | Interrupt(t: nat)

  predicate Enabled(s: State, ev: Event) {
    ev.t in s.phases &&
    match ev
    case TryRead(t) => s.phases[t] in {Outside, WokenReader}
    case LeaveRead(t) => s.phases[t] == Reading
    case TryWrite(t) => s.phases[t] in {Outside, WokenWriter}
    case LeaveWrite(t) => s.phases[t] == Writing
    case Interrupt(t) => s.phases[t] in {AsleepReader, WokenReader, AsleepWriter, WokenWriter}
  }

  function Wake(p: Phase): Phase {
    match p
    case AsleepReader => WokenReader
    case AsleepWriter => WokenWriter
    case _ => p
  }

  /** `notify_all`. */
  function WakeAll(phases: map<nat, Phase>): map<nat, Phase> {
    map t | t in phases :: Wake(phases[t])
  }

  function Step(s: State, ev: Event): State
    requires Enabled(s, ev)
  {
    match ev
    case TryRead(t) =>
      if s.writer || s.waitingWriters > 0 then s.(phases := s.phases[t := AsleepReader])
      else s.(readers := s.readers + 1, phases := s.phases[t := Reading])
    case LeaveRead(t) =>
      var left := s.phases[t := Outside];
      s.(readers := s.readers - 1, phases := if s.readers - 1 == 0 then WakeAll(left) else left)
    case TryWrite(t) =>
      var waiting := if s.phases[t] == Outside then s.waitingWriters + 1 else s.waitingWriters;
      if s.writer || s.readers > 0 then s.(waitingWriters := waiting, phases := s.phases[t := AsleepWriter])
      else s.(writer := true, waitingWriters := waiting - 1, phases := s.phases[t := Writing])
    case LeaveWrite(t) => s.(writer := false, phases := WakeAll(s.phases[t := Outside]))
    case Interrupt(t) =>
      s.(waitingWriters := if s.phases[t] in {AsleepWriter, WokenWriter} then s.waitingWriters - 1 else s.waitingWriters,
         phases := s.phases[t := Outside])
  }

  /** The lock object; `phases` records where its callers are. */
  class ReadWriteLock {
    var readers: int
    var writer: bool
    var waitingWriters: int
    ghost var phases: map<nat, Phase>

    ghost function Snapshot(): State
      reads this
    {
      State(readers, writer, waitingWriters, phases)
    }

    constructor (ghost threads: set<nat>)
      ensures Snapshot() == Start(threads)
    {
      readers, writer, waitingWriters := 0, false, 0;
      phases := map t | t in threads :: Outside;
    }

    /** One pass through the guard of `acquire_read`; on `false` the caller waits. */
    method TryAcquireRead(ghost t: nat) returns (acquired: bool)
      requires Enabled(Snapshot(), TryRead(t))
      modifies this
      ensures Snapshot() == Step(old(Snapshot()), TryRead(t))
      ensures acquired <==> phases[t] == Reading
    {
      acquired := !(writer || waitingWriters > 0);
      if acquired {
        readers := readers + 1;
        phases := phases[t := Reading];
      } else {
        phases := phases[t := AsleepReader];
      }
    }

    method ReleaseRead(ghost t: nat)
      requires Enabled(Snapshot(), LeaveRead(t))
      modifies this
      ensures Snapshot() == Step(old(Snapshot()), LeaveRead(t))
    {
      readers := readers - 1;
      phases := phases[t := Outside];
      if readers == 0 {
        phases := WakeAll(phases);
      }
    }

    /** One pass through the guard of `acquire_write`; a first pass announces the waiting writer. */
    method TryAcquireWrite(ghost t: nat, first: bool) returns (acquired: bool)
      requires Enabled(Snapshot(), TryWrite(t)) && (first <==> phases[t] == Outside)
      modifies this
      ensures Snapshot() == Step(old(Snapshot()), TryWrite(t))
      ensures acquired <==> phases[t] == Writing
    {
      if first {
        waitingWriters := waitingWriters + 1;
      }
      acquired := !(writer || readers > 0);
      if acquired {
        writer := true;
        waitingWriters := waitingWriters - 1;
        phases := phases[t := Writing];
      } else {
        phases := phases[t := AsleepWriter];
      }
    }

    method ReleaseWrite(ghost t: nat)
      requires Enabled(Snapshot(), LeaveWrite(t))
      modifies this
      ensures Snapshot() == Step(old(Snapshot()), LeaveWrite(t))
    {
      writer := false;
      phases := WakeAll(phases[t := Outside]);
    }
  }

  // ----- Every run -----

  function Start(threads: set<nat>): State {
    State(0, false, 0, map t | t in threads :: Outside)
  }

  /** The state reached from `s` by a history, if the history is possible. */
  function After(s: State, history: seq<Event>): (r: Option<State>) {
    if history == [] then Some(s)
    else
      var before := After(s, history[..|history| - 1]);
      var last := history[|history| - 1];
      if before.Some? && Enabled(before.value, last) then Some(Step(before.value, last)) else None
  }

  ghost function In(phases: map<nat, Phase>, which: set<Phase>): set<nat> {
    set t | t in phases && phases[t] in which
  }

  /** The counters count threads, and a writer excludes everyone else. */
  ghost predicate Exclusive(s: State) {
    && s.readers == |In(s.phases, {Reading})|
    && s.waitingWriters == |In(s.phases, {AsleepWriter, WokenWriter})|
    && |In(s.phases, {Writing})| == (if s.writer then 1 else 0)
    && (s.writer ==> s.readers == 0)
  }

  /** A sleeping writer has a holder to wake it; a sleeping reader has a writer, inside or waiting. */
  ghost predicate WakeupsOwed(s: State) {
    && (In(s.phases, {AsleepWriter}) != {} ==> s.writer || s.readers > 0)
    && (In(s.phases, {AsleepReader}) != {} ==> s.writer || s.waitingWriters > 0)
  }

  lemma MoveChangesCount(phases: map<nat, Phase>, t: nat, p: Phase, which: set<Phase>)
    requires t in phases
    ensures |In(phases[t := p], which)|
            == |In(phases, which)| - (if phases[t] in which then 1 else 0) + (if p in which then 1 else 0)
  {
    CountSplitsAt(phases, t, which);
    CountSplitsAt(phases[t := p], t, which);
    assert Others(phases[t := p], t, which) == Others(phases, t, which);
  }

  ghost function Others(phases: map<nat, Phase>, t: nat, which: set<Phase>): set<nat> {
    set x | x in phases && x != t && phases[x] in which
  }

  lemma CountSplitsAt(phases: map<nat, Phase>, t: nat, which: set<Phase>)
    requires t in phases
    ensures |In(phases, which)| == |Others(phases, t, which)| + (if phases[t] in which then 1 else 0)
  {
    if phases[t] in which {
      assert In(phases, which) == Others(phases, t, which) + {t};
    } else {
      assert In(phases, which) == Others(phases, t, which);
    }
  }

  /** Waking moves nobody in or out of a set that does not tell asleep from woken. */
  lemma WakingKeepsCount(phases: map<nat, Phase>, which: set<Phase>)
    requires forall p :: Wake(p) in which <==> p in which
    ensures In(WakeAll(phases), which) == In(phases, which)
  {
  }

  lemma WakingKeepsCounts(phases: map<nat, Phase>)
    ensures var woken := WakeAll(phases);
            && In(woken, {Reading}) == In(phases, {Reading})
            && In(woken, {AsleepWriter, WokenWriter}) == In(phases, {AsleepWriter, WokenWriter})
            && In(woken, {Writing}) == In(phases, {Writing})
            && In(woken, {AsleepReader}) == {} && In(woken, {AsleepWriter}) == {}
  {
    WakingKeepsCount(phases, {Reading});
    WakingKeepsCount(phases, {AsleepWriter, WokenWriter});
    WakingKeepsCount(phases, {Writing});
  }

  lemma StepKeepsExclusive(s: State, ev: Event)
    requires Exclusive(s) && Enabled(s, ev)
    ensures Exclusive(Step(s, ev))
  {
    var t, s' := ev.t, Step(s, ev);
    var moved := s.phases[t := match ev
                               case TryRead(_) => s'.phases[t]
                               case TryWrite(_) => s'.phases[t]
                               case _ => Outside];
    MoveChangesCount(s.phases, t, moved[t], {Reading});
    MoveChangesCount(s.phases, t, moved[t], {AsleepWriter, WokenWriter});
    MoveChangesCount(s.phases, t, moved[t], {Writing});
    WakingKeepsCounts(moved);
    HolderIsCounted(s, t);
  }

  lemma HolderIsCounted(s: State, t: nat)
    requires Exclusive(s) && t in s.phases
    ensures s.phases[t] == Writing ==> s.writer
    ensures s.phases[t] == Reading ==> s.readers > 0
  {
    assert s.phases[t] == Writing ==> t in In(s.phases, {Writing});
    assert s.phases[t] == Reading ==> t in In(s.phases, {Reading});
  }

  /** In every run, interrupted waits included, the counters are exact and a writer is alone. */
  lemma {:induction false} RunKeepsExclusive(threads: set<nat>, history: seq<Event>)
    requires After(Start(threads), history).Some?
    ensures Exclusive(After(Start(threads), history).value)
  {
    if history == [] {
      assert In(Start(threads).phases, {Reading}) == {};
      assert In(Start(threads).phases, {AsleepWriter, WokenWriter}) == {};
      assert In(Start(threads).phases, {Writing}) == {};
    } else {
      RunKeepsExclusive(threads, history[..|history| - 1]);
      StepKeepsExclusive(After(Start(threads), history[..|history| - 1]).value, history[|history| - 1]);
    }
  }

  /** Said of threads: nobody else holds the lock while one thread writes. */
  lemma WriterExcludesEveryone(threads: set<nat>, history: seq<Event>, w: nat, other: nat)
    requires After(Start(threads), history).Some?
    requires var s := After(Start(threads), history).value;
             w in s.phases && other in s.phases && w != other && s.phases[w] == Writing
    ensures After(Start(threads), history).value.phases[other] !in {Reading, Writing}
  {
    RunKeepsExclusive(threads, history);
    var s := After(Start(threads), history).value;
    HolderIsCounted(s, w);
    HolderIsCounted(s, other);
    if s.phases[other] == Writing {
      assert {w, other} <= In(s.phases, {Writing});
      SubsetCount({w, other}, In(s.phases, {Writing}));
    }
  }

  lemma {:induction false} SubsetCount(a: set<nat>, b: set<nat>)
    requires a <= b
    ensures |a| <= |b|
  {
    if a != {} {
      var x :| x in a;
      SubsetCount(a - {x}, b - {x});
    }
  }

  // ----- Wake-ups -----

  predicate InterruptsWriter(s: State, ev: Event)
    requires Enabled(s, ev)
  {
    ev.Interrupt? && s.phases[ev.t] in {AsleepWriter, WokenWriter}
  }

  /** Only an interrupted writer can strand anyone: every other step keeps all wake-ups owed. */
  lemma StepKeepsWakeups(s: State, ev: Event)
    requires Exclusive(s) && WakeupsOwed(s) && Enabled(s, ev) && !InterruptsWriter(s, ev)
    ensures WakeupsOwed(Step(s, ev))
  {
    var s' := Step(s, ev);
    StepKeepsExclusive(s, ev);
    if ev.LeaveRead? || ev.LeaveWrite? {
      WakingKeepsCounts(s.phases[ev.t := Outside]);
    }
    forall t | t != ev.t && t in s'.phases && s'.phases[t] in {AsleepReader, AsleepWriter}
      ensures t in s.phases && s.phases[t] == s'.phases[t]
    { }
    assert In(s'.phases, {AsleepWriter}) - {ev.t} <= In(s.phases, {AsleepWriter});
    assert In(s'.phases, {AsleepReader}) - {ev.t} <= In(s.phases, {AsleepReader});
  }

  /** A writer leaving `wait` by an exception keeps the wake-ups owed exactly if no reader was counting on it. */
  lemma InterruptedWriterStrandsReaders(s: State, t: nat)
    requires Exclusive(s) && WakeupsOwed(s) && Enabled(s, Interrupt(t)) && InterruptsWriter(s, Interrupt(t))
    ensures WakeupsOwed(Step(s, Interrupt(t))) <==> In(s.phases, {AsleepReader}) == {} || s.writer || s.waitingWriters > 1
  {
    var s' := Step(s, Interrupt(t));
    assert In(s'.phases, {AsleepReader}) == In(s.phases, {AsleepReader});
    assert In(s'.phases, {AsleepWriter}) <= In(s.phases, {AsleepWriter});
  }

  /** No writer's wait is interrupted anywhere in the history. */
  ghost predicate NoWriterInterrupted(s: State, history: seq<Event>) {
    forall i :: 0 <= i < |history| && After(s, history[..i]).Some? && Enabled(After(s, history[..i]).value, history[i])
      ==> !InterruptsWriter(After(s, history[..i]).value, history[i])
  }

  /** Without interrupted writers no wake-up is ever lost. */
  lemma {:induction false} RunKeepsWakeups(threads: set<nat>, history: seq<Event>)
    requires After(Start(threads), history).Some? && NoWriterInterrupted(Start(threads), history)
    ensures WakeupsOwed(After(Start(threads), history).value)
  {
    if history == [] {
      assert In(Start(threads).phases, {AsleepReader}) == {};
      assert In(Start(threads).phases, {AsleepWriter}) == {};
    } else {
      var n := |history| - 1;
      forall i | 0 <= i < n ensures history[..n][..i] == history[..i] && history[..n][i] == history[i] { }
      RunKeepsWakeups(threads, history[..n]);
      RunKeepsExclusive(threads, history[..n]);
      StepKeepsWakeups(After(Start(threads), history[..n]).value, history[n]);
    }
  }

  /** Someone wants the lock and has not got it. */
  ghost predicate Waiting(s: State, t: nat) {
    t in s.phases && s.phases[t] in {AsleepReader, WokenReader, AsleepWriter, WokenWriter}
  }

  /** The thread is awake and its next pass through the guard gets the lock. */
  ghost predicate CanProceed(s: State, t: nat) {
    t in s.phases &&
    match s.phases[t]
    case WokenReader => Step(s, TryRead(t)).phases[t] == Reading
    case WokenWriter => Step(s, TryWrite(t)).phases[t] == Writing
    case _ => false
  }

  /** An unheld lock that anyone waits for always has a waiter that is awake and will get it. */
  lemma UnheldLockMakesProgress(threads: set<nat>, history: seq<Event>, t: nat)
    requires After(Start(threads), history).Some? && NoWriterInterrupted(Start(threads), history)
    requires var s := After(Start(threads), history).value; !s.writer && s.readers == 0 && Waiting(s, t)
    ensures exists next :: CanProceed(After(Start(threads), history).value, next)
  {
    RunKeepsWakeups(threads, history);
    RunKeepsExclusive(threads, history);
    var s := After(Start(threads), history).value;
    assert s.phases[t] == AsleepReader ==> t in In(s.phases, {AsleepReader});
    if s.waitingWriters > 0 {
      var w :| w in In(s.phases, {AsleepWriter, WokenWriter});
      assert s.phases[w] == AsleepWriter ==> w in In(s.phases, {AsleepWriter});
      assert CanProceed(s, w);
    } else {
      assert s.phases[t] in {AsleepWriter, WokenWriter} ==> t in In(s.phases, {AsleepWriter, WokenWriter});
      assert CanProceed(s, t);
    }
  }

  /** A run with an interrupted writer after which a reader sleeps on a lock nobody holds or waits to hold. */
  lemma InterruptedWriterCanStrandReader()
    ensures exists history :: After(Start({0, 1, 2}), history).Some?
              && var s := After(Start({0, 1, 2}), history).value;
                 s.phases == map[0 := Outside, 1 := Outside, 2 := AsleepReader] && !s.writer && s.readers == 0 && s.waitingWriters == 0
  {
    var s0 := Start({0, 1, 2});
    var h1 := [TryWrite(0)];
    var h2 := h1 + [TryWrite(1)];
    var h3 := h2 + [LeaveWrite(0)];
    var h4 := h3 + [TryRead(2)];
    var h5 := h4 + [Interrupt(1)];
    AfterExtends(s0, [], TryWrite(0));
    assert h1 == [] + [TryWrite(0)];
    AfterExtends(s0, h1, TryWrite(1));
    AfterExtends(s0, h2, LeaveWrite(0));
    AfterExtends(s0, h3, TryRead(2));
    AfterExtends(s0, h4, Interrupt(1));
    assert After(s0, h5).Some?;
  }

  lemma AfterExtends(s: State, history: seq<Event>, ev: Event)
    requires After(s, history).Some? && Enabled(After(s, history).value, ev)
    ensures After(s, history + [ev]) == Some(Step(After(s, history).value, ev))
  {
    assert (history + [ev])[..|history|] == history;
  }

  // ----- Writer preference -----

  ghost predicate WriterWaitsThroughout(s: State, history: seq<Event>) {
    forall i :: 0 <= i < |history| && After(s, history[..i]).Some? ==> After(s, history[..i]).value.waitingWriters > 0
  }

  /** From any state, as long as some writer waits, the number of readers never grows. */
  lemma {:induction false} ReadersOnlyLeaveWhileWriterWaits(s: State, history: seq<Event>)
    requires After(s, history).Some? && WriterWaitsThroughout(s, history)
    ensures After(s, history).value.readers <= s.readers
  {
    if history != [] {
      var n := |history| - 1;
      forall i | 0 <= i < n ensures history[..n][..i] == history[..i] { }
      ReadersOnlyLeaveWhileWriterWaits(s, history[..n]);
    }
  }
}
