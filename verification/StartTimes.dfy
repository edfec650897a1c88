/**
 When a command began: at the shell's first fork since the command was armed, or else when its
 start was marked. Said on the log, and carried to the command table.
 */
module StartTimes {
  import opened Wrappers
  import opened Text
  import opened Events
  import opened Tracker
  import opened Runs
  import Backdating
  import Capsule
  import MarkerLanguage
  import Recording
  import Reporting
  import Showing

  // ---- The time in terms of the log ----

  /** A fork event of the shell that carries this command. */
  predicate ShellFork(e: Event, shell: int, id: U64) {
    e.kind.ProcessFork? && e.pid == shell && e.command == Some(id)
  }

  /** The time of the first such event. */
  function FirstFork(events: seq<Event>, shell: int, id: U64): Option<U64> {
    if events == [] then None
    else
      var before := FirstFork(Front(events), shell, id);
      if before.Some? then before
      else if ShellFork(Last(events), shell, id) then Some(Last(events).ns)
      else None
  }

  /** How long the log was when the latest command was armed. */
  function ArmedAt(setup: Setup, cs: seq<Callback>): nat {
    if cs == [] then 0
    else
      var before := Trace(setup, Front(cs));
      if before.Accepted? && Backdating.Arms(before.state, Last(cs)) then |before.events|
      else ArmedAt(setup, Front(cs))
  }

  /** What the start of a command must say, given the log so far and the time of its marker. */
  function StartTime(log: seq<Event>, armedAt: nat, shell: int, id: U64, marked: U64): U64
    requires armedAt <= |log|
  {
    match FirstFork(log[armedAt..], shell, id)
    case Some(ns) => ns
    case None => marked
  }

  // ---- What every step keeps ----

  function Earlier(a: Option<U64>, b: Option<U64>): Option<U64> {
    if a.Some? then a else b
  }

  lemma {:induction false} FirstForkConcat(a: seq<Event>, b: seq<Event>, shell: int, id: U64)
    ensures FirstFork(a + b, shell, id) == Earlier(FirstFork(a, shell, id), FirstFork(b, shell, id))
    decreases |b|
  {
    if b == [] {
      assert a + b == a;
    } else {
      assert Front(a + b) == a + Front(b) && Last(a + b) == Last(b);
      FirstForkConcat(a, Front(b), shell, id);
    }
  }

  lemma {:induction false} NoForkNoTime(events: seq<Event>, shell: int, id: U64)
    requires forall e <- events :: !ShellFork(e, shell, id)
    ensures FirstFork(events, shell, id) == None
  {
    if events != [] {
      assert Last(events) in events && forall e <- Front(events) :: e in events;
      NoForkNoTime(Front(events), shell, id);
    }
  }

  lemma {:induction false} OneFork(e: Event, shell: int, id: U64)
    ensures FirstFork([e], shell, id) == if ShellFork(e, shell, id) then Some(e.ns) else None
  {
    assert Front([e]) == [] && Last([e]) == e;
  }

  /** A fork is noted exactly as it is logged. */
  lemma {:induction false} ForkIsNoted(s: State, c: Callback, id: U64)
    requires Valid(s) && FreshIn(s, c) && c.Created? && s.active.Some? && s.active.value.id == id && Armed(s)
    ensures var s1, events := Step(s, c).state, Step(s, c).events;
            && s1.active.Some? && s1.active.value.id == id
            && s1.active.value.firstProcessNs
               == Earlier(s.active.value.firstProcessNs, FirstFork(events, s.root, id))
  {
    var events := Step(s, c).events;
    if Known(s, c.tid) && !IsThread(c.event, c.cloneFlags) {
      assert events == [events[0]];
      OneFork(events[0], s.root, id);
    }
  }

  /** Other callbacks log no fork and note none. */
  lemma {:induction false} NoForkIsNoted(s: State, c: Callback, id: U64)
    requires Valid(s) && FreshIn(s, c) && Step(s, c).Accepted? && !c.Created?
    ensures FirstFork(Step(s, c).events, s.root, id) == None
  {
    forall e <- Step(s, c).events ensures !e.kind.ProcessFork? {
      if c.Called? {
        SyscallFrame(Find(s, c.call.tid), c.call, c.memory);
      }
    }
    NoForkNoTime(Step(s, c).events, s.root, id);
  }

  lemma ArmedStays(s: State, c: Callback)
    requires Valid(s) && Step(s, c).Accepted? && !c.Created? && !Backdating.Arms(s, c) && Armed(Step(s, c).state)
    ensures Step(s, c).state.active == s.active
  {
  }

  /** While a command is armed, the noted time is that of the first fork in the log since then. */
  predicate Noted(s: State, log: seq<Event>, armedAt: nat) {
    && armedAt <= |log|
    && (Armed(s) ==> s.active.value.firstProcessNs == FirstFork(log[armedAt..], s.root, s.active.value.id))
  }

  lemma ArmNotes(s: State, c: Callback, log: seq<Event>)
    requires Valid(s) && Step(s, c).Accepted? && Backdating.Arms(s, c)
    ensures Noted(Step(s, c).state, log + Step(s, c).events, |log|)
  {
    assert Step(s, c).events == [] && log + [] == log;
    assert log[|log|..] == [];
  }

  lemma StepKeepsNoted(s: State, c: Callback, log: seq<Event>, armedAt: nat)
    requires Valid(s) && FreshIn(s, c) && Step(s, c).Accepted? && Noted(s, log, armedAt)
    requires !Backdating.Arms(s, c)
    ensures Noted(Step(s, c).state, log + Step(s, c).events, armedAt)
  {
    var s1, events := Step(s, c).state, Step(s, c).events;
    StepKeepsKeys(s, c);
    assert (log + events)[armedAt..] == log[armedAt..] + events;
    if Armed(s1) {
      var id := s1.active.value.id;
      FirstForkConcat(log[armedAt..], events, s.root, id);
      if c.Created? {
        Backdating.QuietActive(s, c);
        ForkIsNoted(s, c, id);
      } else {
        ArmedStays(s, c);
        NoForkIsNoted(s, c, id);
      }
    }
  }

  lemma {:induction false} ReachableNoted(setup: Setup, cs: seq<Callback>)
    requires Trace(setup, cs).Accepted? && FreshPids(setup, cs)
    ensures Noted(Trace(setup, cs).state, Trace(setup, cs).events, ArmedAt(setup, cs))
  {
    if cs != [] {
      ReachableNoted(setup, Front(cs));
      ReachableIsValid(setup, Front(cs));
      var s, log := Trace(setup, Front(cs)).state, Trace(setup, Front(cs)).events;
      if Backdating.Arms(s, Last(cs)) {
        ArmNotes(s, Last(cs), log);
      } else {
        StepKeepsNoted(s, Last(cs), log, ArmedAt(setup, Front(cs)));
      }
    }
  }

  // ---- Start events ----

  predicate MarksStart(setup: Setup, before: Outcome, c: Callback) {
    c.Marked? && c.marker.kind.Start? && before.Accepted? && MarkerLanguage.ReachesRoot(before.state, c)
  }

  /** The event of a start marker in a state, before its time is known in terms of the log. */
  lemma StartMarkerEvent(s: State, c: Callback)
    requires Valid(s) && MarkerLanguage.ReachesRoot(s, c) && c.marker.kind.Start? && Step(s, c).Accepted?
    ensures Armed(s) && s.active.value.id == c.marker.id
    ensures var events := Step(s, c).events;
            && |events| == 1 && events[0].kind.CommandStart? && events[0].command == Some(c.marker.id)
            && events[0].ns == (match s.active.value.firstProcessNs case Some(ns) => ns case None => c.ns)
  {
  }

  /**
   In any run, an accepted start marker adds one start event. Its time is that of the shell's
   first fork since the command was armed, or else that of the marker.
   */
  lemma {:induction false} StartIsTimed(setup: Setup, cs: seq<Callback>, c: Callback)
    requires Trace(setup, cs + [c]).Accepted? && FreshPids(setup, cs + [c])
    requires MarksStart(setup, Trace(setup, cs), c)
    ensures ArmedAt(setup, cs) <= |Trace(setup, cs).events|
    ensures var log, all := Trace(setup, cs).events, Trace(setup, cs + [c]).events;
            && |all| == |log| + 1 && all[..|log|] == log
            && all[|log|].kind.CommandStart? && all[|log|].command == Some(c.marker.id)
            && all[|log|].ns == StartTime(log, ArmedAt(setup, cs), setup.pid, c.marker.id, c.ns)
  {
    assert Front(cs + [c]) == cs && Last(cs + [c]) == c;
    ReachableIsValid(setup, cs);
    ReachableNoted(setup, cs);
    StartMarkerEvent(Trace(setup, cs).state, c);
  }

  /** Under a monotone clock the first fork is the earliest. */
  lemma {:induction false} FirstForkIsEarliest(setup: Setup, cs: seq<Callback>, from: nat, id: U64, e: Event)
    requires Trace(setup, cs).Accepted? && FreshPids(setup, cs) && Monotone(setup, cs)
    requires from <= |Trace(setup, cs).events| && e in Trace(setup, cs).events[from..]
    requires ShellFork(e, setup.pid, id)
    ensures FirstFork(Trace(setup, cs).events[from..], setup.pid, id).Some?
    ensures FirstFork(Trace(setup, cs).events[from..], setup.pid, id).value <= e.ns
  {
    var log := Trace(setup, cs).events;
    Showing.LogAscends(setup, cs);
    var i :| 0 <= i < |log[from..]| && log[from..][i] == e;
    FirstForkAscends(log[from..], setup.pid, id, i);
  }

  lemma {:induction false} FirstForkAscends(events: seq<Event>, shell: int, id: U64, i: nat)
    requires i < |events| && ShellFork(events[i], shell, id)
    requires forall j, k | 0 <= j < k < |events| && !events[j].kind.CommandStart? && !events[k].kind.CommandStart? ::
               events[j].ns <= events[k].ns
    ensures FirstFork(events, shell, id).Some? && FirstFork(events, shell, id).value <= events[i].ns
  {
    var n := |events| - 1;
    if i < n {
      FirstForkAscends(Front(events), shell, id, i);
    } else if FirstFork(Front(events), shell, id).Some? {
      var j := FirstForkAt(Front(events), shell, id);
      assert events[j].ns <= events[n].ns;
    }
  }

  lemma {:induction false} FirstForkAt(events: seq<Event>, shell: int, id: U64) returns (j: nat)
    requires FirstFork(events, shell, id).Some?
    ensures j < |events| && ShellFork(events[j], shell, id) && events[j].ns == FirstFork(events, shell, id).value
  {
    if FirstFork(Front(events), shell, id).Some? {
      j := FirstForkAt(Front(events), shell, id);
    } else {
      j := |events| - 1;
    }
  }

  // ---- Whole runs, and the command table ----

  /** The i-th callback is the marker of the start event at k, and the event has the time it must have. */
  ghost predicate TimedBy(setup: Setup, cs: seq<Callback>, k: nat, i: nat)
    requires Trace(setup, cs).Accepted? && k < |Trace(setup, cs).events|
  {
    var log := Trace(setup, cs).events;
    && i < |cs| && MarksStart(setup, Trace(setup, cs[..i]), cs[i])
    && Trace(setup, cs[..i]).events == log[..k]
    && log[k].command == Some(cs[i].marker.id)
    && ArmedAt(setup, cs[..i]) <= k
    && log[k].ns == StartTime(log[..k], ArmedAt(setup, cs[..i]), setup.pid, cs[i].marker.id, cs[i].ns)
  }

  lemma StepStart(s: State, c: Callback, j: nat)
    requires Valid(s) && FreshIn(s, c) && Step(s, c).Accepted?
    requires j < |Step(s, c).events| && Step(s, c).events[j].kind.CommandStart?
    ensures c.Marked? && c.marker.kind.Start? && MarkerLanguage.ReachesRoot(s, c) && j == 0
  {
    if !c.Marked? {
      Backdating.UnmarkedEvent(s, c, Step(s, c).events[j]);
    }
  }

  lemma {:induction false} TimedStays(setup: Setup, cs: seq<Callback>, k: nat, i: nat)
    requires cs != [] && Trace(setup, cs).Accepted? && k < |Trace(setup, Front(cs)).events|
    requires TimedBy(setup, Front(cs), k, i)
    ensures k < |Trace(setup, cs).events| && TimedBy(setup, cs, k, i)
  {
    assert Front(cs)[..i] == cs[..i];
    var log := Trace(setup, Front(cs)).events;
    assert Trace(setup, cs).events == log + Step(Trace(setup, Front(cs)).state, Last(cs)).events;
    assert Trace(setup, cs).events[..k] == log[..k];
  }

  lemma {:induction false} NewStartIsMarked(setup: Setup, cs: seq<Callback>, k: nat)
    requires cs != [] && Trace(setup, cs).Accepted? && FreshPids(setup, cs)
    requires Trace(setup, Front(cs)).Accepted?
    requires |Trace(setup, Front(cs)).events| <= k < |Trace(setup, cs).events|
    requires Trace(setup, cs).events[k].kind.CommandStart?
    ensures MarksStart(setup, Trace(setup, Front(cs)), Last(cs)) && k == |Trace(setup, Front(cs)).events|
  {
    ReachableIsValid(setup, Front(cs));
    StepStart(Trace(setup, Front(cs)).state, Last(cs), k - |Trace(setup, Front(cs)).events|);
  }

  lemma {:induction false} NewStartIsTimed(setup: Setup, before: seq<Callback>, c: Callback)
    requires Trace(setup, before + [c]).Accepted? && FreshPids(setup, before + [c])
    requires MarksStart(setup, Trace(setup, before), c)
    ensures |Trace(setup, before).events| < |Trace(setup, before + [c]).events|
    ensures TimedBy(setup, before + [c], |Trace(setup, before).events|, |before|)
  {
    StartIsTimed(setup, before, c);
    assert (before + [c])[..|before|] == before;
  }

  lemma {:induction false} LastStartIsTimed(setup: Setup, cs: seq<Callback>, k: nat)
    requires cs != [] && Trace(setup, cs).Accepted? && FreshPids(setup, cs)
    requires Trace(setup, Front(cs)).Accepted?
    requires |Trace(setup, Front(cs)).events| <= k < |Trace(setup, cs).events|
    requires Trace(setup, cs).events[k].kind.CommandStart?
    ensures TimedBy(setup, cs, k, |cs| - 1)
  {
    var before, c := Front(cs), Last(cs);
    NewStartIsMarked(setup, cs, k);
    assert cs == before + [c];
    NewStartIsTimed(setup, before, c);
  }

  /** Every start event of a log, the first of command mode aside, has the time it must have. */
  lemma {:induction false} StartsAreTimed(setup: Setup, cs: seq<Callback>, k: nat) returns (i: nat)
    requires Trace(setup, cs).Accepted? && FreshPids(setup, cs)
    requires k < |Trace(setup, cs).events| && Trace(setup, cs).events[k].kind.CommandStart?
    requires setup.rootCommand.None? || k > 0
    ensures TimedBy(setup, cs, k, i)
  {
    i := 0;
    if cs == [] {
      Reporting.FirstEvent(setup);
    } else if k < |Trace(setup, Front(cs)).events| {
      OldEvent(setup, cs, k);
      i := StartsAreTimed(setup, Front(cs), k);
      TimedStays(setup, cs, k, i);
    } else {
      i := |cs| - 1;
      LastStartIsTimed(setup, cs, k);
    }
  }

  lemma {:induction false} OldEvent(setup: Setup, cs: seq<Callback>, k: nat)
    requires cs != [] && Trace(setup, cs).Accepted? && k < |Trace(setup, Front(cs)).events|
    ensures k < |Trace(setup, cs).events| && Trace(setup, cs).events[k] == Trace(setup, Front(cs)).events[k]
  {
  }

  /** The start event of a stored command. */
  lemma {:induction false} RowHasStart(setup: Setup, cs: seq<Callback>, id: int) returns (k: nat)
    requires Trace(setup, cs).Accepted? && FreshPids(setup, cs)
    requires Capsule.Store(Trace(setup, cs).events).Success?
    requires id in Capsule.Store(Trace(setup, cs).events).value.commands
    ensures k < |Trace(setup, cs).events| && Recording.StartsCommand(Trace(setup, cs).events[k], id)
    ensures Capsule.Store(Trace(setup, cs).events).value.commands[id].startNs == AsI64(Trace(setup, cs).events[k].ns)
  {
    var log := Trace(setup, cs).events;
    Recording.RunIsStoredExactly(setup, cs);
    var commands := Capsule.Store(log).value.commands;
    var e :| e in log && Recording.StartsCommand(e, id) && Recording.StartedBy(commands[id], e);
    k :| 0 <= k < |log| && log[k] == e;
  }

  /** The row of a stored command has the time of its start event, hence the one it must have. */
  lemma {:induction false} RowIsTimed(setup: Setup, cs: seq<Callback>, id: int) returns (k: nat, i: nat)
    requires Trace(setup, cs).Accepted? && FreshPids(setup, cs)
    requires Capsule.Store(Trace(setup, cs).events).Success?
    requires id in Capsule.Store(Trace(setup, cs).events).value.commands
    ensures k < |Trace(setup, cs).events| && Recording.StartsCommand(Trace(setup, cs).events[k], id)
    ensures Capsule.Store(Trace(setup, cs).events).value.commands[id].startNs == AsI64(Trace(setup, cs).events[k].ns)
    ensures setup.rootCommand.None? || k > 0 ==> TimedBy(setup, cs, k, i)
    ensures setup.rootCommand.Some? && k == 0 ==> Trace(setup, cs).events[k].ns == setup.ns
  {
    k := RowHasStart(setup, cs, id);
    i := 0;
    if setup.rootCommand.None? || k > 0 {
      i := StartsAreTimed(setup, cs, k);
    } else {
      Reporting.FirstStays(setup, cs);
    }
  }
}
