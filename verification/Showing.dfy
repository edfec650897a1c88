/**
 What a reader of a capsule sees: in command mode the answers for command 1 are those for the
 whole run, and the timeline of a command begins with the command's start.
 */
module Showing {
  import opened Wrappers
  import opened Text
  import opened Events
  import opened Tracker
  import opened Runs
  import Backdating
  import Capsule
  import Provenance
  import Queries
  import Recording

  // ---- Times ----

  const MAX_CLOCK: nat := 0x8000_0000_0000_0000

  /** The clock is a signed 64-bit count of nanoseconds. */
  predicate Clocked(setup: Setup, cs: seq<Callback>) {
    setup.ns < MAX_CLOCK && forall c <- cs :: Time(c) < MAX_CLOCK
  }

  predicate Ascending(log: seq<Event>, now: U64) {
    && (forall e <- log :: !e.kind.CommandStart? ==> e.ns <= now)
    && (forall i, j | 0 <= i < j < |log| && !log[i].kind.CommandStart? && !log[j].kind.CommandStart? ::
          log[i].ns <= log[j].ns)
  }

  lemma EventsAscend(log: seq<Event>, events: seq<Event>, now: U64, t: U64)
    requires Ascending(log, now) && now <= t
    requires forall e <- events :: e.kind.CommandStart? || e.ns == t
    ensures Ascending(log + events, t)
  {
  }

  /** Under a monotone clock all events but the back-dated starts appear in the order of time. */
  lemma {:induction false} LogAscends(setup: Setup, cs: seq<Callback>)
    requires Trace(setup, cs).Accepted? && FreshPids(setup, cs) && Monotone(setup, cs)
    ensures Ascending(Trace(setup, cs).events, Now(setup, cs))
  {
    if cs != [] {
      ReachableIsValid(setup, Front(cs));
      LogAscends(setup, Front(cs));
      var s := Trace(setup, Front(cs)).state;
      forall e <- Step(s, Last(cs)).events ensures e.kind.CommandStart? || e.ns == Time(Last(cs)) {
        StepReports(s, Last(cs), e);
      }
      EventsAscend(Trace(setup, Front(cs)).events, Step(s, Last(cs)).events,
                   Now(setup, Front(cs)), Time(Last(cs)));
    }
  }

  lemma {:induction false} EventTimesFit(setup: Setup, cs: seq<Callback>)
    requires Trace(setup, cs).Accepted? && FreshPids(setup, cs) && Clocked(setup, cs)
    ensures forall e <- Trace(setup, cs).events :: e.ns < MAX_CLOCK
    ensures var a := Trace(setup, cs).state.active;
            a.Some? && a.value.firstProcessNs.Some? ==> a.value.firstProcessNs.value < MAX_CLOCK
  {
    if cs != [] {
      ReachableIsValid(setup, Front(cs));
      assert Last(cs) in cs && forall c <- Front(cs) :: c in cs;
      EventTimesFit(setup, Front(cs));
      StepTimesFit(Trace(setup, Front(cs)).state, Last(cs));
    }
  }

  lemma StepTimesFit(s: State, c: Callback)
    requires Valid(s) && FreshIn(s, c) && Step(s, c).Accepted? && Time(c) < MAX_CLOCK
    requires s.active.Some? && s.active.value.firstProcessNs.Some? ==> s.active.value.firstProcessNs.value < MAX_CLOCK
    ensures forall e <- Step(s, c).events :: e.ns < MAX_CLOCK
    ensures var a := Step(s, c).state.active;
            a.Some? && a.value.firstProcessNs.Some? ==> a.value.firstProcessNs.value < MAX_CLOCK
  {
    if !c.Marked? {
      Backdating.QuietActive(s, c);
      forall e <- Step(s, c).events ensures e.ns < MAX_CLOCK {
        Backdating.UnmarkedEvent(s, c, e);
      }
    }
  }

  // ---- The timeline of a command ----

  /** The timeline begins with the start event, at the time printed as zero; nothing shown is earlier. */
  ghost predicate BeginsWithStart(t: Capsule.Tables, id: I64)
    requires id in t.commands
  {
    var shown := Queries.Timeline(t.events, Queries.Only(Some(id)));
    && shown != [] && shown[0].kind.CommandStart? && shown[0].ns == t.commands[id].startNs
    && forall row <- shown :: t.commands[id].startNs <= row.ns
  }

  /** The timeline of every stored command begins with its start event; ids may be armed again. */
  lemma {:induction false} TimelineBeginsWithStart(setup: Setup, cs: seq<Callback>, id: I64)
    requires Trace(setup, cs).Accepted? && FreshPids(setup, cs) && Monotone(setup, cs) && Clocked(setup, cs)
    requires NoAfterExit(setup, cs)
    requires Capsule.Store(Trace(setup, cs).events).Success?
    requires id in Capsule.Store(Trace(setup, cs).events).value.commands
    ensures BeginsWithStart(Capsule.Store(Trace(setup, cs).events).value, id)
  {
    StoredIsBackDated(setup, cs);
    BackDatedTimeline(setup, cs, id);
  }

  /** In a stored log no event is older than the start of its command. */
  lemma {:induction false} StoredIsBackDated(setup: Setup, cs: seq<Callback>)
    requires Trace(setup, cs).Accepted? && FreshPids(setup, cs) && Monotone(setup, cs) && NoAfterExit(setup, cs)
    requires Capsule.Store(Trace(setup, cs).events).Success?
    ensures Backdating.BackDated(Trace(setup, cs).events)
  {
    Recording.RunIsStoredExactly(setup, cs);
    Backdating.StartIsEarliest(setup, cs);
  }

  lemma {:induction false} BackDatedTimeline(setup: Setup, cs: seq<Callback>, id: I64)
    requires Trace(setup, cs).Accepted? && FreshPids(setup, cs) && Clocked(setup, cs)
    requires Capsule.Store(Trace(setup, cs).events).Success?
    requires Backdating.BackDated(Trace(setup, cs).events)
    requires id in Capsule.Store(Trace(setup, cs).events).value.commands
    ensures BeginsWithStart(Capsule.Store(Trace(setup, cs).events).value, id)
  {
    var log := Trace(setup, cs).events;
    var t := Capsule.Store(log).value;
    var shown := Queries.Timeline(t.events, Queries.Only(Some(id)));
    Recording.RunIsStoredExactly(setup, cs);
    EventTimesFit(setup, cs);
    Queries.StoreKeepsRows(log);
    var start :| start in log && Recording.StartsCommand(start, id) && Recording.StartedBy(t.commands[id], start);
    var i :| 0 <= i < |log| && log[i] == start;
    Queries.TimelineMembers(t.events, Queries.Only(Some(id)));
    Queries.RowAt(log, i);
    assert Capsule.RowOf(start) in t.events && Capsule.RowOf(start) in shown;
    forall row <- shown ensures start.ns <= row.ns {
      RowIsNotEarlier(log, i, row, id);
    }
    Queries.TimelineSorts(t.events, Queries.Only(Some(id)));
    FirstIsStart(shown, Capsule.RowOf(start));
  }

  lemma {:induction false} RowIsNotEarlier(log: seq<Event>, i: nat, row: Capsule.EventRow, id: I64)
    requires Backdating.BackDated(log) && forall e <- log :: e.ns < MAX_CLOCK
    requires i < |log| && Recording.StartsCommand(log[i], id)
    requires row in Queries.Rows(log) && row.command == Some(id)
    ensures log[i].ns <= row.ns
  {
    Queries.RowAt(log, i);
    var j :| 0 <= j < |log| && Queries.Rows(log)[j] == row;
    Queries.RowAt(log, j);
    assert log[i] in log && log[j] in log && Backdating.NotBefore(log, log[i]);
    assert log[j].command == log[i].command;
  }

  lemma FirstIsStart(shown: seq<Capsule.EventRow>, start: Capsule.EventRow)
    requires Queries.TimeOrdered(shown) && start in shown && start.kind.CommandStart?
    requires forall row <- shown :: start.ns <= row.ns
    ensures shown[0].kind.CommandStart? && shown[0].ns == start.ns
  {
    var k :| 0 <= k < |shown| && shown[k] == start;
    assert shown[0] in shown;
    if k > 0 {
      assert !Queries.TimelineLess(shown[k], shown[0]);
    }
  }

  // ---- Command mode ----

  predicate NoMarkers(cs: seq<Callback>) {
    forall c <- cs :: !c.Marked?
  }

  /** Command 1 is active until the root exits, and every process that has not exited carries it. */
  predicate OneCommand(s: State, gone: set<int>) {
    && (forall p <- s.processes | p !in gone || p != s.root :: s.processes[p].command == Some(1))
    && (s.active == None || s.active.value.started)
  }

  lemma StepIsCommandOne(s: State, c: Callback, gone: set<int>)
    requires Valid(s) && FreshIn(s, c) && !c.Marked? && OneCommand(s, gone)
    requires Known(s, Actor(c)) && ProcessFor(s, Actor(c)) !in gone
    ensures OneCommand(Step(s, c).state, gone + (if c.Exited? then {c.tid} else {}))
    ensures forall e <- Step(s, c).events :: e.command == Some(1)
  {
    var s1 := Step(s, c).state;
    assert Find(s, Actor(c)).command == Some(1);
    forall p <- s1.processes | p !in gone + (if c.Exited? then {c.tid} else {}) || p != s.root
      ensures s1.processes[p].command == Some(1)
    {
      StepInherits(s, c, p);
      if p == s.root {
        RootKeepsCommand(s, c);
      }
    }
    forall e <- Step(s, c).events ensures e.command == Some(1) {
      if c.Called? {
        SyscallFrame(Find(s, c.call.tid), c.call, c.memory);
      }
    }
  }

  lemma RootKeepsCommand(s: State, c: Callback)
    requires Valid(s) && FreshIn(s, c) && !c.Marked? && !(c.Exited? && c.tid == s.root)
    ensures Step(s, c).state.processes[s.root].command == s.processes[s.root].command
  {
  }

  lemma {:induction false} RunIsCommandOne(setup: Setup, cs: seq<Callback>)
    requires setup.rootCommand.Some? && NoMarkers(cs)
    requires FreshPids(setup, cs) && Announced(setup, cs) && NoAfterExit(setup, cs)
    ensures Trace(setup, cs).Accepted? && OneCommand(Trace(setup, cs).state, Gone(setup, cs))
    ensures forall e <- Trace(setup, cs).events :: e.command == Some(1)
  {
    if cs != [] {
      assert Last(cs) in cs && forall c <- Front(cs) :: c in cs;
      RunIsCommandOne(setup, Front(cs));
      ReachableIsValid(setup, Front(cs));
      StepIsCommandOne(Trace(setup, Front(cs)).state, Last(cs), Gone(setup, Front(cs)));
    }
  }

  lemma {:induction false} StartsOnce(setup: Setup, cs: seq<Callback>)
    requires setup.rootCommand.Some? && NoMarkers(cs) && Trace(setup, cs).Accepted? && FreshPids(setup, cs)
    ensures |Trace(setup, cs).events| > 0
    ensures forall i | 0 < i < |Trace(setup, cs).events| :: !Trace(setup, cs).events[i].kind.CommandStart?
  {
    if cs != [] {
      assert Last(cs) in cs && forall c <- Front(cs) :: c in cs;
      StartsOnce(setup, Front(cs));
      ReachableIsValid(setup, Front(cs));
      var s := Trace(setup, Front(cs)).state;
      forall e <- Step(s, Last(cs)).events ensures !e.kind.CommandStart? {
        Backdating.UnmarkedEvent(s, Last(cs), e);
      }
    }
  }

  /** Files, Network with the last errno, Local IPC and Errors for command 1 are those of the whole run. */
  predicate OneIsWhole(t: Capsule.Tables) {
    var one := Queries.Only(Some(1));
    && Queries.TransfersFromEvents(t.events, FileRead, one) == Queries.TransfersFromTable(t.files, FileRead)
    && Queries.TransfersFromEvents(t.events, FileWrite, one) == Queries.TransfersFromTable(t.files, FileWrite)
    && Queries.ConnectsFromEvents(t.events, one) == t.network
    && Queries.LocalConnects(t.events, one) == Queries.LocalConnects(t.events, Queries.All)
    && Queries.Errors(t.events, one) == Queries.Errors(t.events, Queries.All)
  }

  /**
   Recording one command: the capsule can always be written, and Files, Network (with the last
   errno), Local IPC and Errors for command 1 are those of the whole run.
   */
  lemma {:induction false} FilteredIsWhole(setup: Setup, cs: seq<Callback>)
    requires setup.rootCommand.Some? && NoMarkers(cs)
    requires FreshPids(setup, cs) && Announced(setup, cs) && NoAfterExit(setup, cs)
    requires Monotone(setup, cs) && Clocked(setup, cs)
    ensures Trace(setup, cs).Accepted? && Capsule.Store(Trace(setup, cs).events).Success?
    ensures OneIsWhole(Capsule.Store(Trace(setup, cs).events).value)
  {
    RunIsCommandOne(setup, cs);
    var log, one := Trace(setup, cs).events, Queries.Only(Some(1));
    CommandModeIsStored(setup, cs);
    var t := Capsule.Store(log).value;
    Recording.LogIsReadable(setup, cs);
    Queries.StoreKeepsRows(log);
    AllRowsPass(log);
    NetworkAscends(setup, cs);
    Queries.TransfersAgree(log, FileRead);
    Queries.TransfersAgree(log, FileWrite);
    Queries.ConnectsAgree(log);
    Queries.SameTransfers(t.events, FileRead, one);
    Queries.SameTransfers(t.events, FileWrite, one);
    Queries.SameConnects(t.events, one);
    Queries.SameErrors(t.events, one);
  }

  lemma {:induction false} CommandModeIsStored(setup: Setup, cs: seq<Callback>)
    requires setup.rootCommand.Some? && NoMarkers(cs) && Trace(setup, cs).Accepted? && FreshPids(setup, cs)
    requires forall e <- Trace(setup, cs).events :: e.command == Some(1)
    ensures Capsule.Store(Trace(setup, cs).events).Success?
  {
    StartsOnce(setup, cs);
    Recording.RunIsStoredExactly(setup, cs);
  }

  lemma {:induction false} AllRowsPass(log: seq<Event>)
    requires forall e <- log :: e.command == Some(1)
    ensures Queries.AllPass(Queries.Rows(log), Queries.Only(Some(1)))
  {
    forall row <- Queries.Rows(log) ensures row.command == Some(1) {
      if log != [] {
        Queries.RowAt(log, 0);
        var i :| 0 <= i < |Queries.Rows(log)| && Queries.Rows(log)[i] == row;
        Queries.RowAt(log, i);
        assert log[i] in log;
      }
    }
  }

  lemma {:induction false} RowsAscend(log: seq<Event>, now: U64)
    requires Ascending(log, now) && forall e <- log :: e.ns < MAX_CLOCK
    ensures Queries.TimesAscend(Queries.Rows(log), NetworkConnect)
  {
    var rows := Queries.Rows(log);
    RowsAreAsMany(log);
    forall i, j | 0 <= i < j < |rows| && rows[i].kind == NetworkConnect && rows[j].kind == NetworkConnect
      ensures rows[i].ns <= rows[j].ns
    {
      Queries.RowAt(log, i);
      Queries.RowAt(log, j);
      assert log[i] in log && log[j] in log;
    }
  }

  lemma {:induction false} NetworkAscends(setup: Setup, cs: seq<Callback>)
    requires Trace(setup, cs).Accepted? && FreshPids(setup, cs) && Monotone(setup, cs) && Clocked(setup, cs)
    ensures Queries.TimesAscend(Queries.Rows(Trace(setup, cs).events), NetworkConnect)
  {
    LogAscends(setup, cs);
    EventTimesFit(setup, cs);
    RowsAscend(Trace(setup, cs).events, Now(setup, cs));
  }

  // ---- Every row of file_activity was opened ----

  /** A read or write of the path, with a successful open before it. */
  ghost predicate OpenedAndUsed(log: seq<Event>, path: string) {
    exists k | 0 <= k < |log| ::
      && (log[k].kind.FileRead? || log[k].kind.FileWrite?) && log[k].resource == path
      && Provenance.OpenedBefore(log, k, path)
  }

  lemma {:induction false} FileRowFromLog(log: seq<Event>, path: string) returns (k: nat)
    requires Capsule.Store(log).Success? && path in Capsule.Store(log).value.files
    ensures k < |log| && (log[k].kind.FileRead? || log[k].kind.FileWrite?) && log[k].resource == path
  {
    var rows := Queries.Rows(log);
    Queries.FileTableIsFold(log);
    Queries.StoreKeepsRows(log);
    var row :| row in rows && (row.kind.FileRead? || row.kind.FileWrite?) && row.resource == path;
    k :| 0 <= k < |rows| && rows[k] == row;
    RowsAreAsMany(log);
    Queries.RowAt(log, k);
  }

  /** Every key of file_activity was opened with success earlier in the log than it was used. */
  lemma {:induction false} FileRowsWereOpened(setup: Setup, cs: seq<Callback>, path: string)
    requires Trace(setup, cs).Accepted? && Capsule.Store(Trace(setup, cs).events).Success?
    requires path in Capsule.Store(Trace(setup, cs).events).value.files
    ensures OpenedAndUsed(Trace(setup, cs).events, path)
  {
    var k := FileRowFromLog(Trace(setup, cs).events, path);
    Provenance.TransfersWereOpened(setup, cs, k);
  }

  lemma {:induction false} RowsAreAsMany(log: seq<Event>)
    ensures |Queries.Rows(log)| == |log|
  {
    if log != [] {
      Queries.RowAt(log, 0);
    }
  }
}
