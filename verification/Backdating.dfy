/**
 The start of a command is dated back to its first process. Hence no event of a stored command
 is older than the command's start event.
 */
module Backdating {
  import opened Wrappers
  import opened Text
  import opened Events
  import opened Tracker
  import opened Runs

  predicate Arms(s: State, c: Callback) {
    c.Marked? && c.marker.kind.Arm? && Known(s, c.tid) && Find(s, c.tid).pid == s.root
  }

  predicate CarriedBy(log: seq<Event>, id: U64) {
    exists e <- log :: e.command == Some(id)
  }

  predicate StartedIn(log: seq<Event>, id: U64) {
    exists e <- log :: e.kind.CommandStart? && e.command == Some(id)
  }

  /** No two start events have one id; the primary key of the command table demands it. */
  predicate StartedOnce(log: seq<Event>) {
    forall i, j | 0 <= i < j < |log| && log[i].kind.CommandStart? && log[j].kind.CommandStart? ::
      log[i].command != log[j].command
  }

  /** No event of the command is older than its start. */
  predicate NotBefore(log: seq<Event>, start: Event) {
    forall e <- log :: e.command == start.command ==> start.ns <= e.ns
  }

  /** No event is older than the start of its command. */
  predicate BackDated(log: seq<Event>) {
    forall start <- log | start.kind.CommandStart? :: NotBefore(log, start)
  }

  predicate SoundId(s: State, c: Callback, log: seq<Event>) {
    Arms(s, c) ==> StartedIn(log, c.marker.id) || !CarriedBy(log, c.marker.id)
  }

  /** No id is armed that some event carries although its command was never started. */
  predicate SoundIds(setup: Setup, cs: seq<Callback>) {
    cs != [] ==>
      && SoundIds(setup, Front(cs))
      && (Trace(setup, Front(cs)).Accepted? ==>
            SoundId(Trace(setup, Front(cs)).state, Last(cs), Trace(setup, Front(cs)).events))
  }

  // ---- What every step keeps ----

  /** Below the root, a process's command is carried by some event, if only by its fork. */
  predicate CommandsLogged(s: State, log: seq<Event>) {
    forall p <- s.processes | p != s.root && s.processes[p].command.Some? ::
      CarriedBy(log, s.processes[p].command.value)
  }

  /** While a new command is armed, its first process has marked the time before anything else. */
  predicate ArmedInvariant(s: State, log: seq<Event>, now: U64) {
    Armed(s) && !StartedIn(log, s.active.value.id) ==>
      var a := s.active.value;
      && (a.firstProcessNs.Some? ==> a.firstProcessNs.value <= now)
      && (forall e <- log | e.command == Some(a.id) ::
            a.firstProcessNs.Some? && a.firstProcessNs.value <= e.ns)
      && (forall p <- s.processes | p != s.root && s.processes[p].command == Some(a.id) :: a.firstProcessNs.Some?)
  }

  predicate StartsInvariant(log: seq<Event>, now: U64) {
    forall start <- log | start.kind.CommandStart? ::
      start.command.Some? && start.ns <= now && NotBefore(log, start)
  }

  ghost predicate Invariant(s: State, log: seq<Event>, now: U64) {
    CommandsLogged(s, log) && ArmedInvariant(s, log, now) && StartsInvariant(log, now)
  }

  lemma CarriedMore(log: seq<Event>, events: seq<Event>, id: U64)
    requires CarriedBy(log, id) || CarriedBy(events, id)
    ensures CarriedBy(log + events, id)
  {
    var e :| (e in log || e in events) && e.command == Some(id);
    assert e in log + events;
  }

  lemma ForkCarries(s: State, c: Callback)
    requires Valid(s) && FreshIn(s, c) && c.Created? && c.child in Step(s, c).state.processes
    ensures Known(s, c.tid) && Find(s, c.tid).command.Some? ==>
              CarriedBy(Step(s, c).events, Find(s, c.tid).command.value)
  {
    if Known(s, c.tid) && Find(s, c.tid).command.Some? {
      var e := Step(s, c).events[0];
      assert e in Step(s, c).events && e.command == Find(s, c.tid).command;
    }
  }

  lemma StepKeepsCommandsLogged(s: State, c: Callback, log: seq<Event>)
    requires Valid(s) && FreshIn(s, c) && Step(s, c).Accepted? && CommandsLogged(s, log)
    ensures CommandsLogged(Step(s, c).state, log + Step(s, c).events)
  {
    var s1, events := Step(s, c).state, Step(s, c).events;
    StepKeepsKeys(s, c);
    forall p <- s1.processes | p != s1.root && s1.processes[p].command.Some?
      ensures CarriedBy(log + events, s1.processes[p].command.value)
    {
      StepInherits(s, c, p);
      if p !in s.processes {
        ForkCarries(s, c);
      }
      CarriedMore(log, events, s1.processes[p].command.value);
    }
  }

  /** The time of an armed command's first process is noted before its id can spread. */
  predicate NotedIfUsed(s: State, command: Option<U64>) {
    Armed(s) && command == Some(s.active.value.id) ==> s.active.value.firstProcessNs.Some?
  }

  lemma QuietProcess(s: State, c: Callback, p: int)
    requires Valid(s) && FreshIn(s, c) && Step(s, c).Accepted? && !c.Marked?
    requires forall q <- s.processes | q != s.root :: NotedIfUsed(s, s.processes[q].command)
    requires p in Step(s, c).state.processes && p != s.root
    ensures NotedIfUsed(Step(s, c).state, Step(s, c).state.processes[p].command)
  {
    StepInherits(s, c, p);
  }

  lemma QuietEvent(s: State, c: Callback, e: Event)
    requires Valid(s) && FreshIn(s, c) && Step(s, c).Accepted? && !c.Marked? && e in Step(s, c).events
    requires forall q <- s.processes | q != s.root :: NotedIfUsed(s, s.processes[q].command)
    ensures e.ns == Time(c) && !e.kind.CommandStart?
    ensures NotedIfUsed(Step(s, c).state, e.command)
  {
    StepReports(s, c, e);
    if c.Called? {
      SyscallFrame(Find(s, c.call.tid), c.call, c.memory);
    }
    if e.pid != s.root {
      QuietProcess(s, c, e.pid);
    }
  }

  /** The active command of the next state, as long as nothing is marked. */
  lemma QuietActive(s: State, c: Callback)
    requires Valid(s) && Step(s, c).Accepted? && !c.Marked?
    ensures var a, b := s.active, Step(s, c).state.active;
            b.Some? ==>
              && a.Some? && a.value.id == b.value.id && a.value.started == b.value.started
              && (a.value.firstProcessNs.Some? ==> b.value.firstProcessNs == a.value.firstProcessNs)
              && (b.value.firstProcessNs.Some? ==>
                    b.value.firstProcessNs == a.value.firstProcessNs || b.value.firstProcessNs == Some(Time(c)))
    ensures Step(s, c).state.root == s.root
  {
  }

  /** What a step that marks nothing adds to the log of an armed command. */
  lemma QuietStep(s: State, c: Callback, log: seq<Event>, now: U64)
    requires Valid(s) && FreshIn(s, c) && Step(s, c).Accepted? && now <= Time(c)
    requires ArmedInvariant(s, log, now)
    requires !c.Marked?
    ensures ArmedInvariant(Step(s, c).state, log + Step(s, c).events, Time(c))
  {
    var s1, events := Step(s, c).state, Step(s, c).events;
    QuietActive(s, c);
    if Armed(s1) && !StartedIn(log + events, s1.active.value.id) {
      NotStartedBefore(log, events, s1.active.value.id);
      forall e <- events ensures e.ns == Time(c) && NotedIfUsed(s1, e.command) {
        QuietEvent(s, c, e);
      }
      forall p <- s1.processes | p != s1.root ensures NotedIfUsed(s1, s1.processes[p].command) {
        QuietProcess(s, c, p);
      }
    }
  }

  lemma NotStartedBefore(log: seq<Event>, events: seq<Event>, id: U64)
    requires !StartedIn(log + events, id)
    ensures !StartedIn(log, id)
  {
    assert forall e <- log :: e in log + events;
  }

  lemma QuietEventsKeepStarts(log: seq<Event>, events: seq<Event>, now: U64, t: U64)
    requires StartsInvariant(log, now) && now <= t
    requires forall e <- events :: e.ns == t && !e.kind.CommandStart?
    ensures StartsInvariant(log + events, t)
  {
  }

  lemma StartEventKeepsStarts(log: seq<Event>, start: Event, now: U64, t: U64)
    requires StartsInvariant(log, now) && now <= t
    requires start.kind.CommandStart? && start.command.Some? && start.ns <= t
    requires !StartedIn(log, start.command.value)
    requires forall e <- log | e.command == start.command :: start.ns <= e.ns
    ensures StartsInvariant(log + [start], t)
  {
    forall other <- log + [start] | other.kind.CommandStart?
      ensures other.command.Some? && other.ns <= t && NotBefore(log + [start], other)
    {
      if other in log {
        assert other.command != start.command;
      }
    }
  }

  /** A start event that is the only one of its id. */
  lemma FirstStart(log: seq<Event>, start: Event)
    requires StartedOnce(log + [start]) && start.kind.CommandStart? && start.command.Some?
    ensures !StartedIn(log, start.command.value)
  {
    var all := log + [start];
    forall e <- log ensures e.kind.CommandStart? ==> e.command != start.command {
      var i :| 0 <= i < |log| && log[i] == e;
      assert all[i] == e && all[|log|] == start;
    }
  }

  lemma ArmKeeps(s: State, c: Callback, log: seq<Event>, now: U64)
    requires Valid(s) && Step(s, c).Accepted? && Arms(s, c)
    requires Invariant(s, log, now) && SoundId(s, c, log)
    ensures Step(s, c).events == [] && ArmedInvariant(Step(s, c).state, log, Time(c))
  {
    var s1 := Step(s, c).state;
    if !StartedIn(log, c.marker.id) {
      forall p <- s1.processes | p != s1.root ensures s1.processes[p].command != Some(c.marker.id) {
        assert s1.processes[p] == s.processes[p];
      }
    }
  }

  lemma MarkerStepKeeps(s: State, c: Callback, log: seq<Event>, now: U64)
    requires Valid(s) && Step(s, c).Accepted? && now <= Time(c) && c.Marked?
    requires Invariant(s, log, now) && SoundId(s, c, log) && StartedOnce(log + Step(s, c).events)
    ensures ArmedInvariant(Step(s, c).state, log + Step(s, c).events, Time(c))
    ensures StartsInvariant(log + Step(s, c).events, Time(c))
  {
    var events := Step(s, c).events;
    if events == [] {
      assert log + events == log;
      QuietEventsKeepStarts(log, [], now, Time(c));
      if Arms(s, c) {
        ArmKeeps(s, c, log, now);
      }
    } else {
      assert events == [events[0]];
      if c.marker.kind.Start? {
        FirstStart(log, events[0]);
        StartEventKeepsStarts(log, events[0], now, Time(c));
      } else {
        QuietEventsKeepStarts(log, events, now, Time(c));
      }
    }
  }

  lemma StepKeepsInvariant(s: State, c: Callback, log: seq<Event>, now: U64)
    requires Valid(s) && FreshIn(s, c) && Step(s, c).Accepted? && now <= Time(c)
    requires Invariant(s, log, now) && SoundId(s, c, log) && StartedOnce(log + Step(s, c).events)
    ensures Invariant(Step(s, c).state, log + Step(s, c).events, Time(c))
  {
    StepKeepsCommandsLogged(s, c, log);
    if c.Marked? {
      MarkerStepKeeps(s, c, log, now);
    } else {
      QuietStep(s, c, log, now);
      forall e <- Step(s, c).events ensures e.ns == Time(c) && !e.kind.CommandStart? {
        UnmarkedEvent(s, c, e);
      }
      QuietEventsKeepStarts(log, Step(s, c).events, now, Time(c));
    }
  }

  lemma UnmarkedEvent(s: State, c: Callback, e: Event)
    requires Valid(s) && FreshIn(s, c) && Step(s, c).Accepted? && !c.Marked? && e in Step(s, c).events
    ensures e.ns == Time(c) && !e.kind.CommandStart?
  {
    StepReports(s, c, e);
    if c.Called? {
      SyscallFrame(Find(s, c.call.tid), c.call, c.memory);
    }
  }

  lemma StartedOncePrefix(log: seq<Event>, events: seq<Event>)
    requires StartedOnce(log + events)
    ensures StartedOnce(log)
  {
    forall i, j | 0 <= i < j < |log| && log[i].kind.CommandStart? && log[j].kind.CommandStart?
      ensures log[i].command != log[j].command
    {
      assert (log + events)[i] == log[i] && (log + events)[j] == log[j];
    }
  }

  lemma {:induction false} ReachableInvariant(setup: Setup, cs: seq<Callback>)
    requires Trace(setup, cs).Accepted? && FreshPids(setup, cs) && Monotone(setup, cs)
    requires SoundIds(setup, cs) && StartedOnce(Trace(setup, cs).events)
    ensures Invariant(Trace(setup, cs).state, Trace(setup, cs).events, Now(setup, cs))
  {
    if cs != [] {
      var s, log := Trace(setup, Front(cs)).state, Trace(setup, Front(cs)).events;
      StartedOncePrefix(log, Step(s, Last(cs)).events);
      ReachableInvariant(setup, Front(cs));
      ReachableIsValid(setup, Front(cs));
      StepKeepsInvariant(s, Last(cs), log, Now(setup, Front(cs)));
    }
  }

  /** With sound ids and a monotone clock, every log that starts its commands once is back-dated. */
  lemma {:induction false} SoundIdsAreBackDated(setup: Setup, cs: seq<Callback>)
    requires Trace(setup, cs).Accepted? && FreshPids(setup, cs) && Monotone(setup, cs)
    requires SoundIds(setup, cs) && StartedOnce(Trace(setup, cs).events)
    ensures BackDated(Trace(setup, cs).events)
  {
    ReachableInvariant(setup, cs);
  }

  // ---- While the shell lives, every id is accounted for ----

  /** The id was started, or it is the active one. */
  predicate AccountedId(s: State, log: seq<Event>, id: U64) {
    StartedIn(log, id) || (s.active.Some? && s.active.value.id == id)
  }

  predicate Accounted(s: State, log: seq<Event>) {
    && (s.active.Some? && s.active.value.started ==> StartedIn(log, s.active.value.id))
    && (forall e <- log | e.command.Some? :: AccountedId(s, log, e.command.value))
    && (forall p <- s.processes | p != s.root && s.processes[p].command.Some? ::
          AccountedId(s, log, s.processes[p].command.value))
  }

  lemma StartedMore(log: seq<Event>, events: seq<Event>, id: U64)
    requires StartedIn(log, id) || StartedIn(events, id)
    ensures StartedIn(log + events, id)
  {
    var e :| (e in log || e in events) && e.kind.CommandStart? && e.command == Some(id);
    assert e in log + events;
  }

  /** Only the shell's exit makes an armed command disappear. */
  lemma ActiveStays(s: State, c: Callback)
    requires Valid(s) && Step(s, c).Accepted? && !(c.Exited? && c.tid == s.root) && s.active.Some?
    ensures var a, b := s.active.value, Step(s, c).state.active;
            || (b.Some? && b.value.id == a.id && (b.value.started ==> a.started || StartedIn(Step(s, c).events, a.id)))
            || (b == None && a.started)
  {
    if c.Marked? && Step(s, c).events != [] {
      assert Step(s, c).events[0] in Step(s, c).events;
    }
  }

  lemma ActiveComes(s: State, c: Callback)
    requires Valid(s) && Step(s, c).Accepted? && s.active == None && Step(s, c).state.active.Some?
    ensures Arms(s, c) && Step(s, c).state.active == Some(ActiveCommand(c.marker.id, None, false))
  {
  }

  lemma AccountedIdStays(s: State, c: Callback, log: seq<Event>, id: U64)
    requires Valid(s) && Step(s, c).Accepted? && !(c.Exited? && c.tid == s.root)
    requires Accounted(s, log) && AccountedId(s, log, id)
    ensures AccountedId(Step(s, c).state, log + Step(s, c).events, id)
  {
    if StartedIn(log, id) {
      StartedMore(log, Step(s, c).events, id);
    } else {
      ActiveStays(s, c);
    }
  }

  lemma ProcessIdAccounted(s: State, log: seq<Event>, p: int)
    requires Valid(s) && Accounted(s, log) && p in s.processes && s.processes[p].command.Some?
    ensures AccountedId(s, log, s.processes[p].command.value)
  {
  }

  lemma StepKeepsAccounted(s: State, c: Callback, log: seq<Event>)
    requires Valid(s) && FreshIn(s, c) && Step(s, c).Accepted? && !(c.Exited? && c.tid == s.root)
    requires Accounted(s, log)
    ensures Accounted(Step(s, c).state, log + Step(s, c).events)
  {
    var s1, events := Step(s, c).state, Step(s, c).events;
    StepKeepsKeys(s, c);
    if s1.active.Some? && s1.active.value.started {
      StartedIsLogged(s, c, log);
    }
    forall e <- log + events | e.command.Some? ensures AccountedId(s1, log + events, e.command.value) {
      if e in events {
        StepEventId(s, c, e);
        var p :| p in s.processes && s.processes[p].command == e.command;
        ProcessIdAccounted(s, log, p);
      }
      AccountedIdStays(s, c, log, e.command.value);
    }
    forall p <- s1.processes | p != s1.root && s1.processes[p].command.Some?
      ensures AccountedId(s1, log + events, s1.processes[p].command.value)
    {
      NewProcessAccounted(s, c, log, p);
    }
  }

  lemma StartedIsLogged(s: State, c: Callback, log: seq<Event>)
    requires Valid(s) && Step(s, c).Accepted? && !(c.Exited? && c.tid == s.root) && Accounted(s, log)
    requires Step(s, c).state.active.Some? && Step(s, c).state.active.value.started
    ensures StartedIn(log + Step(s, c).events, Step(s, c).state.active.value.id)
  {
    if s.active == None {
      ActiveComes(s, c);
    } else {
      ActiveStays(s, c);
      StartedMore(log, Step(s, c).events, s.active.value.id);
    }
  }

  lemma NewProcessAccounted(s: State, c: Callback, log: seq<Event>, p: int)
    requires Valid(s) && FreshIn(s, c) && Step(s, c).Accepted? && !(c.Exited? && c.tid == s.root)
    requires Accounted(s, log)
    requires p in Step(s, c).state.processes && p != s.root && Step(s, c).state.processes[p].command.Some?
    ensures AccountedId(Step(s, c).state, log + Step(s, c).events, Step(s, c).state.processes[p].command.value)
  {
    var command := Step(s, c).state.processes[p].command;
    StepInherits(s, c, p);
    var q := if p in s.processes then p else ProcessFor(s, Actor(c));
    assert q in s.processes && s.processes[q].command == command;
    ProcessIdAccounted(s, log, q);
    AccountedIdStays(s, c, log, command.value);
  }

  lemma {:induction false} IdsAreAccounted(setup: Setup, cs: seq<Callback>)
    requires Trace(setup, cs).Accepted? && FreshPids(setup, cs) && NoAfterExit(setup, cs)
    ensures setup.pid in Gone(setup, cs) || Accounted(Trace(setup, cs).state, Trace(setup, cs).events)
  {
    if cs != [] {
      IdsAreAccounted(setup, Front(cs));
      ReachableIsValid(setup, Front(cs));
      if setup.pid !in Gone(setup, cs) {
        StepKeepsAccounted(Trace(setup, Front(cs)).state, Last(cs), Trace(setup, Front(cs)).events);
      }
    }
  }

  lemma ArmIsSound(s: State, c: Callback, log: seq<Event>)
    requires Valid(s) && Step(s, c).Accepted? && (Arms(s, c) ==> Accounted(s, log))
    ensures SoundId(s, c, log)
  {
  }

  /** A shell that marks nothing after its exit arms only sound ids: a carried id was started. */
  lemma {:induction false} NoAfterExitIsSound(setup: Setup, cs: seq<Callback>)
    requires Trace(setup, cs).Accepted? && FreshPids(setup, cs) && NoAfterExit(setup, cs)
    ensures SoundIds(setup, cs)
  {
    if cs != [] {
      NoAfterExitIsSound(setup, Front(cs));
      IdsAreAccounted(setup, Front(cs));
      ReachableIsValid(setup, Front(cs));
      ArmIsSound(Trace(setup, Front(cs)).state, Last(cs), Trace(setup, Front(cs)).events);
    }
  }

  /**
   In every run with a monotone clock in which nothing follows a process's exit: if the log
   starts each command once, as every stored log does, then no event, wherever it stands, is
   older than the start of its command. Ids may be armed again.
   */
  lemma {:induction false} StartIsEarliest(setup: Setup, cs: seq<Callback>)
    requires Trace(setup, cs).Accepted? && FreshPids(setup, cs) && Monotone(setup, cs) && NoAfterExit(setup, cs)
    requires StartedOnce(Trace(setup, cs).events)
    ensures BackDated(Trace(setup, cs).events)
  {
    NoAfterExitIsSound(setup, cs);
    SoundIdsAreBackDated(setup, cs);
  }

  // ---- Fresh ids ----

  predicate NewId(s: State, c: Callback, log: seq<Event>) {
    Arms(s, c) ==> !CarriedBy(log, c.marker.id)
  }

  /** No id is armed that an earlier event carries. */
  predicate FreshIds(setup: Setup, cs: seq<Callback>) {
    cs != [] ==>
      && FreshIds(setup, Front(cs))
      && (Trace(setup, Front(cs)).Accepted? ==>
            NewId(Trace(setup, Front(cs)).state, Last(cs), Trace(setup, Front(cs)).events))
  }

  lemma {:induction false} FreshIdsAreSound(setup: Setup, cs: seq<Callback>)
    requires FreshIds(setup, cs)
    ensures SoundIds(setup, cs)
  {
    if cs != [] {
      FreshIdsAreSound(setup, Front(cs));
    }
  }

  /** Each command is started once so far, and the armed one not at all. */
  predicate OnceSoFar(s: State, log: seq<Event>) {
    StartedOnce(log) && (Armed(s) ==> !StartedIn(log, s.active.value.id))
  }

  lemma OneMoreStart(log: seq<Event>, start: Event)
    requires StartedOnce(log) && start.command.Some? && !StartedIn(log, start.command.value)
    ensures StartedOnce(log + [start])
  {
    var all := log + [start];
    forall i, j | 0 <= i < j < |all| && all[i].kind.CommandStart? && all[j].kind.CommandStart?
      ensures all[i].command != all[j].command
    {
      assert all[i] in log;
    }
  }

  lemma NoMoreStart(log: seq<Event>, events: seq<Event>)
    requires StartedOnce(log) && forall e <- events :: !e.kind.CommandStart?
    ensures StartedOnce(log + events)
    ensures forall id :: StartedIn(log + events, id) ==> StartedIn(log, id)
  {
    var all := log + events;
    forall i, j | 0 <= i < j < |all| && all[i].kind.CommandStart? && all[j].kind.CommandStart?
      ensures all[i].command != all[j].command
    {
      assert j < |log|;
    }
  }

  lemma StepStartsOnce(s: State, c: Callback, log: seq<Event>)
    requires Valid(s) && FreshIn(s, c) && Step(s, c).Accepted? && NewId(s, c, log) && OnceSoFar(s, log)
    ensures OnceSoFar(Step(s, c).state, log + Step(s, c).events)
  {
    var events := Step(s, c).events;
    if c.Marked? && c.marker.kind.Start? && events != [] {
      assert events == [events[0]];
      OneMoreStart(log, events[0]);
    } else {
      forall e <- events ensures !e.kind.CommandStart? {
        if !c.Marked? {
          UnmarkedEvent(s, c, e);
        }
      }
      NoMoreStart(log, events);
      if !c.Marked? {
        QuietActive(s, c);
      }
    }
  }

  /** Fresh ids start each command once, whatever the clock does. */
  lemma {:induction false} FreshIdsStartOnce(setup: Setup, cs: seq<Callback>)
    requires Trace(setup, cs).Accepted? && FreshPids(setup, cs) && FreshIds(setup, cs)
    ensures OnceSoFar(Trace(setup, cs).state, Trace(setup, cs).events)
  {
    if cs != [] {
      FreshIdsStartOnce(setup, Front(cs));
      ReachableIsValid(setup, Front(cs));
      StepStartsOnce(Trace(setup, Front(cs)).state, Last(cs), Trace(setup, Front(cs)).events);
    }
  }

  /** With fresh ids the log is back-dated even if the shell's exit is not its last word. */
  lemma {:induction false} FreshIdsAreBackDated(setup: Setup, cs: seq<Callback>)
    requires Trace(setup, cs).Accepted? && FreshPids(setup, cs) && Monotone(setup, cs) && FreshIds(setup, cs)
    ensures BackDated(Trace(setup, cs).events) && StartedOnce(Trace(setup, cs).events)
  {
    FreshIdsAreSound(setup, cs);
    FreshIdsStartOnce(setup, cs);
    SoundIdsAreBackDated(setup, cs);
  }

  // ---- The exact condition over all runs ----

  predicate Past(s: State, log: seq<Event>, now: U64) {
    && (forall e <- log :: e.ns <= now)
    && (s.active.Some? && s.active.value.firstProcessNs.Some? ==> s.active.value.firstProcessNs.value <= now)
  }

  lemma StepKeepsPast(s: State, c: Callback, log: seq<Event>, now: U64)
    requires Valid(s) && FreshIn(s, c) && Step(s, c).Accepted? && now <= Time(c) && Past(s, log, now)
    ensures Past(Step(s, c).state, log + Step(s, c).events, Time(c))
  {
    if !c.Marked? {
      QuietActive(s, c);
    }
    forall e <- Step(s, c).events ensures e.ns <= Time(c) {
      StepReports(s, c, e);
      if c.Called? {
        SyscallFrame(Find(s, c.call.tid), c.call, c.memory);
      }
    }
  }

  lemma {:induction false} EventsArePast(setup: Setup, cs: seq<Callback>)
    requires Trace(setup, cs).Accepted? && FreshPids(setup, cs) && Monotone(setup, cs)
    ensures Past(Trace(setup, cs).state, Trace(setup, cs).events, Now(setup, cs))
  {
    if cs != [] {
      EventsArePast(setup, Front(cs));
      ReachableIsValid(setup, Front(cs));
      StepKeepsPast(Trace(setup, Front(cs)).state, Last(cs), Trace(setup, Front(cs)).events, Now(setup, Front(cs)));
    }
  }

  /** A run that is known up to here, extended by one callback. */
  lemma {:induction false} OneMore(setup: Setup, cs: seq<Callback>, c: Callback)
    requires Trace(setup, cs).Accepted? && Step(Trace(setup, cs).state, c).Accepted?
    ensures Trace(setup, cs + [c]) ==
            Accepted(Step(Trace(setup, cs).state, c).state,
                     Trace(setup, cs).events + Step(Trace(setup, cs).state, c).events)
    ensures FreshPids(setup, cs + [c]) == (FreshPids(setup, cs) && FreshIn(Trace(setup, cs).state, c))
    ensures Monotone(setup, cs + [c]) == (Monotone(setup, cs) && Now(setup, cs) <= Time(c))
    ensures Now(setup, cs + [c]) == Time(c)
    ensures SoundIds(setup, cs + [c]) ==
            (SoundIds(setup, cs) && SoundId(Trace(setup, cs).state, c, Trace(setup, cs).events))
    ensures NoAfterExit(setup, cs + [c]) ==
            (NoAfterExit(setup, cs) && ProcessFor(Trace(setup, cs).state, Actor(c)) !in Gone(setup, cs))
    ensures Gone(setup, cs + [c]) == Gone(setup, cs) + LeaderGone(Trace(setup, cs), c)
  {
    assert Front(cs + [c]) == cs && Last(cs + [c]) == c;
  }

  /** A run can be continued like this: with sound ids from now on, and each command started once. */
  predicate Continues(setup: Setup, run: seq<Callback>, more: seq<Callback>) {
    && Trace(setup, run + more).Accepted?
    && FreshPids(setup, run + more) && Monotone(setup, run + more)
    && SoundIdsIn(setup, run, more)
    && StartedOnce(Trace(setup, run + more).events)
  }

  predicate SoundIdsIn(setup: Setup, run: seq<Callback>, more: seq<Callback>) {
    more != [] ==>
      var before := Trace(setup, run + Front(more));
      && SoundIdsIn(setup, run, Front(more))
      && (before.Accepted? ==> SoundId(before.state, Last(more), before.events))
  }

  lemma {:induction false} SoundIdsContinue(setup: Setup, run: seq<Callback>, more: seq<Callback>)
    requires SoundIds(setup, run) && SoundIdsIn(setup, run, more)
    ensures SoundIds(setup, run + more)
  {
    if more == [] {
      assert run + more == run;
    } else {
      SoundIdsContinue(setup, run, Front(more));
      assert Front(run + more) == run + Front(more) && Last(run + more) == Last(more);
    }
  }

  /** An armed command is started: the one event that this gives. */
  lemma StartBehindArm(s: State, arm: Callback, ns: U64)
    requires Valid(s) && Arms(s, arm) && Step(s, arm).Accepted?
    ensures Step(s, arm).events == []
    ensures var next := Step(Step(s, arm).state, Marked(arm.tid, arm.marker.(kind := Start), ns));
            && next.Accepted? && |next.events| == 1
            && next.events[0].kind.CommandStart? && next.events[0].command == Some(arm.marker.id)
            && next.events[0].ns == ns
  {
  }

  lemma LaterStart(log: seq<Event>, event: Event, id: U64, now: U64)
    requires CarriedBy(log, id) && (forall e <- log :: e.ns <= now)
    requires event.kind.CommandStart? && event.command == Some(id) && now < event.ns
    ensures !BackDated(log + [event])
    ensures StartedOnce(log) && !StartedIn(log, id) ==> StartedOnce(log + [event])
  {
    var e :| e in log && e.command == Some(id);
    assert e in log + [event] && event in log + [event];
    if StartedOnce(log) && !StartedIn(log, id) {
      OneMoreStart(log, event);
    }
  }

  lemma ArmThenStart(setup: Setup, cs: seq<Callback>, arm: Callback, start: Callback) returns (event: Event)
    requires Trace(setup, cs).Accepted? && FreshPids(setup, cs) && Monotone(setup, cs)
    requires Arms(Trace(setup, cs).state, arm) && Step(Trace(setup, cs).state, arm).Accepted?
    requires Now(setup, cs) <= arm.ns < 0xFFFF_FFFF_FFFF_FFFF
    requires start == Marked(arm.tid, arm.marker.(kind := Start), arm.ns + 1)
    ensures var run := cs + [arm] + [start];
            && Trace(setup, run).Accepted? && FreshPids(setup, run) && Monotone(setup, run)
            && Trace(setup, run).events == Trace(setup, cs).events + [event]
    ensures event.kind.CommandStart? && event.command == Some(arm.marker.id) && event.ns == arm.ns + 1
  {
    var s := Trace(setup, cs).state;
    ReachableIsValid(setup, cs);
    StartBehindArm(s, arm, arm.ns + 1);
    OneMore(setup, cs, arm);
    OneMore(setup, cs + [arm], start);
    var events := Step(Step(s, arm).state, start).events;
    event := events[0];
    assert events == [event] && Trace(setup, cs).events + [] == Trace(setup, cs).events;
  }

  /** Arming an id that the log carries, and starting it one tick later. */
  lemma UsedIdIsNotBackDated(setup: Setup, cs: seq<Callback>, arm: Callback) returns (start: Callback)
    requires Trace(setup, cs).Accepted? && FreshPids(setup, cs) && Monotone(setup, cs)
    requires Arms(Trace(setup, cs).state, arm) && Step(Trace(setup, cs).state, arm).Accepted?
    requires Now(setup, cs) <= arm.ns < 0xFFFF_FFFF_FFFF_FFFF
    requires CarriedBy(Trace(setup, cs).events, arm.marker.id)
    ensures var run := cs + [arm] + [start];
            && Trace(setup, run).Accepted? && FreshPids(setup, run) && Monotone(setup, run)
            && !BackDated(Trace(setup, run).events)
    ensures SoundIdsIn(setup, cs + [arm], [start])
    ensures StartedOnce(Trace(setup, cs).events) && !StartedIn(Trace(setup, cs).events, arm.marker.id) ==>
              StartedOnce(Trace(setup, cs + [arm] + [start]).events)
  {
    start := Marked(arm.tid, arm.marker.(kind := Start), arm.ns + 1);
    var event := ArmThenStart(setup, cs, arm, start);
    EventsArePast(setup, cs);
    LaterStart(Trace(setup, cs).events, event, arm.marker.id, Now(setup, cs));
    assert Front([start]) == [] && cs + [arm] + [] == cs + [arm];
  }

  /**
   An arm marker keeps every storable continuation of its run back-dated exactly if its id is
   started in the log or not carried by it. The source arms any id while no command is active;
   it does not look into the log.
   */
  lemma {:induction false} ArmIsSafeExactly(setup: Setup, cs: seq<Callback>, arm: Callback)
    requires Trace(setup, cs).Accepted? && FreshPids(setup, cs) && Monotone(setup, cs)
    requires SoundIds(setup, cs) && StartedOnce(Trace(setup, cs).events)
    requires Arms(Trace(setup, cs).state, arm) && Step(Trace(setup, cs).state, arm).Accepted?
    requires Now(setup, cs) <= arm.ns < 0xFFFF_FFFF_FFFF_FFFF
    ensures SoundId(Trace(setup, cs).state, arm, Trace(setup, cs).events) <==>
            forall more | Continues(setup, cs + [arm], more) :: BackDated(Trace(setup, cs + [arm] + more).events)
  {
    OneMore(setup, cs, arm);
    if !SoundId(Trace(setup, cs).state, arm, Trace(setup, cs).events) {
      var start := UsedIdIsNotBackDated(setup, cs, arm);
      assert Continues(setup, cs + [arm], [start]);
    } else {
      forall more | Continues(setup, cs + [arm], more)
        ensures BackDated(Trace(setup, cs + [arm] + more).events)
      {
        SoundIdsContinue(setup, cs + [arm], more);
        SoundIdsAreBackDated(setup, cs + [arm] + more);
      }
    }
  }

  function ShellWith(command: Option<U64>): Process {
    Process(7, 0, "", "/", command, map[])
  }

  const SHELL := Setup(7, "/", None, 0)
  const ARM := CommandMarker(Arm, 5, "", "/", 0)

  /** The root of a fresh session has armed a command. */
  lemma Armed5() returns (cs: seq<Callback>)
    ensures Trace(SHELL, cs) ==
            Accepted(State(map[7 := ShellWith(Some(5))], map[7 := 7], Some(ActiveCommand(5, None, false)), 7), [])
    ensures FreshPids(SHELL, cs) && Monotone(SHELL, cs) && SoundIds(SHELL, cs) && NoAfterExit(SHELL, cs)
    ensures Now(SHELL, cs) == 1 && Gone(SHELL, cs) == {}
  {
    assert Trace(SHELL, []) == Accepted(State(map[7 := ShellWith(None)], map[7 := 7], None, 7), []);
    OneMore(SHELL, [], Marked(7, ARM, 1));
    cs := [] + [Marked(7, ARM, 1)];
  }

  /** Its first process is forked, then the shell's exit is reported. */
  lemma ArmForkExit() returns (cs: seq<Callback>)
    ensures Trace(SHELL, cs).Accepted? && FreshPids(SHELL, cs) && Monotone(SHELL, cs) && SoundIds(SHELL, cs)
    ensures Now(SHELL, cs) == 12 && Gone(SHELL, cs) == {7}
    ensures var s, log := Trace(SHELL, cs).state, Trace(SHELL, cs).events;
            && s.root == 7 && s.active == None && s.threads == map[8 := 8]
            && 7 in s.processes && s.processes[7] == ShellWith(None)
            && |log| == 2 && log[0].command == Some(5)
            && !log[0].kind.CommandStart? && !log[1].kind.CommandStart?
  {
    cs := Armed5();
    var fork, exit := Created(7, 8, Fork, 0, 10), Exited(7, 0, 0, 12);
    OneMore(SHELL, cs, fork);
    assert Trace(SHELL, cs + [fork]).state.active == Some(ActiveCommand(5, Some(10), false));
    OneMore(SHELL, cs + [fork], exit);
    cs := cs + [fork] + [exit];
  }

  /** A shell that is gone arms an id that was carried but never started. */
  lemma GoneShellArms(setup: Setup, cs: seq<Callback>, arm: Callback) returns (run: seq<Callback>)
    requires Trace(setup, cs).Accepted? && FreshPids(setup, cs) && Monotone(setup, cs)
    requires Arms(Trace(setup, cs).state, arm) && Step(Trace(setup, cs).state, arm).Accepted?
    requires Now(setup, cs) <= arm.ns < 0xFFFF_FFFF_FFFF_FFFF
    requires ProcessFor(Trace(setup, cs).state, arm.tid) in Gone(setup, cs)
    requires CarriedBy(Trace(setup, cs).events, arm.marker.id) && !StartedIn(Trace(setup, cs).events, arm.marker.id)
    requires StartedOnce(Trace(setup, cs).events)
    ensures Trace(setup, run).Accepted? && FreshPids(setup, run) && Monotone(setup, run)
    ensures StartedOnce(Trace(setup, run).events) && !BackDated(Trace(setup, run).events)
    ensures !NoAfterExit(setup, run) && !SoundIds(setup, run)
  {
    OneMore(setup, cs, arm);
    var start := UsedIdIsNotBackDated(setup, cs, arm);
    run := cs + [arm] + [start];
    assert Front(run) == cs + [arm];
  }

  lemma ArmsAgain(s: State, ns: U64)
    requires s.root == 7 && s.active == None && 7 !in s.threads
    requires 7 in s.processes && s.processes[7] == ShellWith(None)
    ensures Arms(s, Marked(7, ARM, ns)) && Step(s, Marked(7, ARM, ns)).Accepted? && ProcessFor(s, 7) == 7
  {
  }

  lemma CarriedUnstarted(log: seq<Event>)
    requires |log| == 2 && log[0].command == Some(5)
    requires !log[0].kind.CommandStart? && !log[1].kind.CommandStart?
    ensures CarriedBy(log, 5) && !StartedIn(log, 5) && StartedOnce(log)
  {
    assert log[0] in log;
  }

  /**
   Without NoAfterExit the property fails: the shell's exit drops an armed command, the same id
   is armed again, and the fork of the first attempt is older than the only start. The collector
   cannot deliver such a run: markers come from system call stops, and a task has none after its end.
   */
  lemma RearmedIdIsNotBackdated() returns (run: seq<Callback>)
    ensures Trace(SHELL, run).Accepted? && FreshPids(SHELL, run) && Monotone(SHELL, run)
    ensures StartedOnce(Trace(SHELL, run).events) && !BackDated(Trace(SHELL, run).events)
    ensures !NoAfterExit(SHELL, run) && !SoundIds(SHELL, run)
  {
    var cs := ArmForkExit();
    ArmsAgain(Trace(SHELL, cs).state, 13);
    CarriedUnstarted(Trace(SHELL, cs).events);
    run := GoneShellArms(SHELL, cs, Marked(7, ARM, 13));
  }

  /** The command is armed and started. */
  lemma ArmStart() returns (cs: seq<Callback>)
    ensures Trace(SHELL, cs).Accepted? && FreshPids(SHELL, cs) && Monotone(SHELL, cs) && NoAfterExit(SHELL, cs)
    ensures Now(SHELL, cs) == 2 && Gone(SHELL, cs) == {}
    ensures Trace(SHELL, cs).state == ShellState(Some(ActiveCommand(5, None, true)))
    ensures StartedIn(Trace(SHELL, cs).events, 5)
  {
    cs := Armed5();
    var start := Marked(7, ARM.(kind := Start), 2);
    OneMore(SHELL, cs, start);
    cs := cs + [start];
    var log := Trace(SHELL, cs).events;
    assert |log| == 1 && log[0] in log;
  }

  /** The shell alone, with a command or without one. */
  function ShellState(active: Option<ActiveCommand>): State {
    State(map[7 := ShellWith(if active.Some? then Some(active.value.id) else None)], map[7 := 7], active, 7)
  }

  lemma EndOfFive()
    ensures var next := Step(ShellState(Some(ActiveCommand(5, None, true))), Marked(7, ARM.(kind := End), 3));
            next.Accepted? && next.state == ShellState(None)
  {
  }

  /** The command is armed, started and ended by a living shell. */
  lemma ArmStartEnd() returns (cs: seq<Callback>)
    ensures Trace(SHELL, cs).Accepted? && FreshPids(SHELL, cs) && Monotone(SHELL, cs) && NoAfterExit(SHELL, cs)
    ensures Now(SHELL, cs) == 3 && Gone(SHELL, cs) == {}
    ensures Trace(SHELL, cs).state == ShellState(None)
    ensures StartedIn(Trace(SHELL, cs).events, 5)
  {
    cs := ArmStart();
    var end := Marked(7, ARM.(kind := End), 3);
    var s, log := Trace(SHELL, cs).state, Trace(SHELL, cs).events;
    EndOfFive();
    OneMore(SHELL, cs, end);
    StartedMore(log, Step(s, end).events, 5);
    cs := cs + [end];
  }

  /**
   A living shell that arms and starts an ended id again makes a log that is not back-dated.
   Such a log has two starts of one command, and the writer refuses it.
   */
  lemma RestartedIdIsNotBackDated() returns (cs: seq<Callback>)
    ensures Trace(SHELL, cs).Accepted? && FreshPids(SHELL, cs) && Monotone(SHELL, cs) && NoAfterExit(SHELL, cs)
    ensures !BackDated(Trace(SHELL, cs).events) && !StartedOnce(Trace(SHELL, cs).events)
  {
    cs := ArmStartEnd();
    var again := Marked(7, ARM, 4);
    var log := Trace(SHELL, cs).events;
    var e :| e in log && e.kind.CommandStart? && e.command == Some(5);
    assert CarriedBy(log, 5);
    OneMore(SHELL, cs, again);
    var start := UsedIdIsNotBackDated(SHELL, cs, again);
    OneMore(SHELL, cs + [again], start);
    cs := cs + [again] + [start];
    if StartedOnce(Trace(SHELL, cs).events) {
      StartIsEarliest(SHELL, cs);
    }
  }

  // ---- Numbered sessions have fresh ids ----

  /** The ids that the session has used, the fixed id of command mode included. */
  function UsedIds(setup: Setup, cs: seq<Callback>): set<U64> {
    if cs == [] then (if setup.rootCommand.Some? then {1} else {})
    else
      UsedIds(setup, Front(cs)) +
      (if Trace(setup, Front(cs)).Accepted? && Arms(Trace(setup, Front(cs)).state, Last(cs)) then
         {Last(cs).marker.id}
       else {})
  }

  predicate UnusedId(s: State, c: Callback, used: set<U64>) {
    Arms(s, c) ==> c.marker.id !in used
  }

  /** The shell numbers its commands: no id is armed a second time. */
  predicate DistinctIds(setup: Setup, cs: seq<Callback>) {
    cs != [] ==>
      && DistinctIds(setup, Front(cs))
      && (Trace(setup, Front(cs)).Accepted? ==>
            UnusedId(Trace(setup, Front(cs)).state, Last(cs), UsedIds(setup, Front(cs))))
  }

  predicate IdIn(command: Option<U64>, used: set<U64>) {
    command.Some? ==> command.value in used
  }

  predicate IdsKnown(s: State, log: seq<Event>, used: set<U64>) {
    && (forall p <- s.processes :: IdIn(s.processes[p].command, used))
    && (forall e <- log :: IdIn(e.command, used))
  }

  function UsedAfter(s: State, c: Callback, used: set<U64>): set<U64> {
    used + (if Arms(s, c) then {c.marker.id} else {})
  }

  /** The command of a new event is one that some process already has. */
  lemma StepEventId(s: State, c: Callback, e: Event)
    requires Valid(s) && FreshIn(s, c) && Step(s, c).Accepted? && e in Step(s, c).events
    ensures e.command.Some? ==> exists p <- s.processes :: s.processes[p].command == e.command
  {
    StepReports(s, c, e);
  }

  lemma StepKeepsIds(s: State, c: Callback, log: seq<Event>, used: set<U64>)
    requires Valid(s) && FreshIn(s, c) && Step(s, c).Accepted? && IdsKnown(s, log, used)
    ensures IdsKnown(Step(s, c).state, log + Step(s, c).events, UsedAfter(s, c, used))
  {
    var s1, events, used1 := Step(s, c).state, Step(s, c).events, UsedAfter(s, c, used);
    forall p <- s1.processes ensures IdIn(s1.processes[p].command, used1) {
      StepProcessId(s, c, p);
    }
    forall e <- log + events ensures IdIn(e.command, used1) {
      if e in events {
        StepEventId(s, c, e);
      }
    }
  }

  lemma StepProcessId(s: State, c: Callback, p: int)
    requires Valid(s) && FreshIn(s, c) && Step(s, c).Accepted? && p in Step(s, c).state.processes
    ensures var command := Step(s, c).state.processes[p].command;
            || command == None
            || (exists q <- s.processes :: s.processes[q].command == command)
            || (Arms(s, c) && command == Some(c.marker.id))
  {
    StepInherits(s, c, p);
    if c.Created? && p !in s.processes {
      assert ProcessFor(s, c.tid) in s.processes;
    } else if p != s.root && p in s.processes {
      assert Step(s, c).state.processes[p].command == s.processes[p].command;
    }
  }

  lemma {:induction false} UsedIdsAreKnown(setup: Setup, cs: seq<Callback>)
    requires Trace(setup, cs).Accepted? && FreshPids(setup, cs)
    ensures IdsKnown(Trace(setup, cs).state, Trace(setup, cs).events, UsedIds(setup, cs))
  {
    if cs != [] {
      UsedIdsAreKnown(setup, Front(cs));
      ReachableIsValid(setup, Front(cs));
      StepKeepsIds(Trace(setup, Front(cs)).state, Last(cs), Trace(setup, Front(cs)).events,
                   UsedIds(setup, Front(cs)));
    }
  }

  /** Ids that are never armed twice are fresh. */
  lemma {:induction false} DistinctIdsAreFresh(setup: Setup, cs: seq<Callback>)
    requires Trace(setup, cs).Accepted? && FreshPids(setup, cs) && DistinctIds(setup, cs)
    ensures FreshIds(setup, cs)
  {
    if cs != [] {
      DistinctIdsAreFresh(setup, Front(cs));
      UsedIdsAreKnown(setup, Front(cs));
    }
  }
}
