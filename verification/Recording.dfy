/** The tracker and the writer together: which runs can be stored, and what the tables then mirror. */
module Recording {
  import opened Wrappers
  import opened Text
  import opened Events
  import opened Tracker
  import opened Runs
  import opened Capsule
  import Backdating

  // ---- The events of the tracker carry what the writer reads ----

  predicate Printed(e: Event, key: string, n: int) {
    key in e.metadata && e.metadata[key] == Decimal(n)
  }

  predicate PrintedI64(e: Event, key: string) {
    key in e.metadata && Stoll(e.metadata[key]).Some?
  }

  /** Numbers are present and fit; ids are there where the writer needs them. */
  predicate Readable(e: Event) {
    && e.errno >= 0
    && (e.kind.CommandStart? ==> e.command.Some? && Printed(e, "sequence", e.command.value))
    && (e.kind.CommandEnd? ==> e.command.Some?)
    && (e.kind.ProcessExec? ==> PrintedI64(e, "ppid"))
    && (e.kind.ProcessFork? ==> PrintedI64(e, "child_pid") && "executable" in e.metadata)
    && (e.kind.ProcessExit? ==> PrintedI64(e, "exit_code") && PrintedI64(e, "term_signal"))
  }

  predicate PidsFit(s: State) {
    forall p <- s.processes :: 0 < p < 0x8000_0000 && 0 <= s.processes[p].parentPid < 0x8000_0000
  }

  lemma StepKeepsPids(s: State, c: Callback)
    requires Valid(s) && FreshIn(s, c) && Step(s, c).Accepted? && PidsFit(s)
    ensures PidsFit(Step(s, c).state)
  {
    forall p <- Step(s, c).state.processes
      ensures 0 < p < 0x8000_0000 && 0 <= Step(s, c).state.processes[p].parentPid < 0x8000_0000
    {
      StepInherits(s, c, p);
    }
  }

  lemma ExecIsReadable(s: State, c: Callback, e: Event)
    requires Valid(s) && c.Execed? && PidsFit(s) && e in Step(s, c).events
    ensures Readable(e)
  {
    StollOfDecimal(Find(Discover(s, c.tid, c.cwdLink), c.tid).parentPid);
  }

  lemma ForkIsReadable(s: State, c: Callback, e: Event)
    requires Valid(s) && c.Created? && e in Step(s, c).events
    ensures Readable(e)
  {
    StollOfDecimal(c.child);
  }

  lemma ExitPrints(s: State, c: Callback)
    requires Valid(s) && c.Exited?
    ensures var events := Step(s, c).events;
            events != [] ==>
              && |events| <= 2 && events[0].kind.ProcessExit? && events[0].errno == 0
              && Printed(events[0], "exit_code", c.exitCode) && Printed(events[0], "term_signal", c.termSignal)
              && (|events| == 2 ==> events[1].kind.CommandEnd? && events[1].command.Some? && events[1].errno == 0)
  {
  }

  lemma ExitIsReadable(s: State, c: Callback, e: Event)
    requires Valid(s) && c.Exited? && e in Step(s, c).events
    ensures Readable(e)
  {
    ExitPrints(s, c);
    StollOfDecimal(c.exitCode);
    StollOfDecimal(c.termSignal);
  }

  lemma OtherIsReadable(s: State, c: Callback, e: Event)
    requires Valid(s) && (c.Marked? || c.Called?) && Step(s, c).Accepted? && e in Step(s, c).events
    ensures Readable(e)
  {
    if c.Called? {
      SyscallFrame(Find(s, c.call.tid), c.call, c.memory);
    }
  }

  lemma StepIsReadable(s: State, c: Callback, e: Event)
    requires Valid(s) && FreshIn(s, c) && Step(s, c).Accepted? && PidsFit(s) && e in Step(s, c).events
    ensures Readable(e)
  {
    match c
    case Execed(_, _, _, _) => ExecIsReadable(s, c, e);
    case Created(_, _, _, _, _) => ForkIsReadable(s, c, e);
    case Exited(_, _, _, _) => ExitIsReadable(s, c, e);
    case _ => OtherIsReadable(s, c, e);
  }

  lemma {:induction false} LogIsReadable(setup: Setup, cs: seq<Callback>)
    requires Trace(setup, cs).Accepted? && FreshPids(setup, cs)
    ensures PidsFit(Trace(setup, cs).state)
    ensures forall e <- Trace(setup, cs).events :: Readable(e)
  {
    if cs == [] {
      assert Decimal(1) == "1";
    } else {
      LogIsReadable(setup, Front(cs));
      ReachableIsValid(setup, Front(cs));
      var s := Trace(setup, Front(cs)).state;
      StepKeepsPids(s, Last(cs));
      forall e <- Step(s, Last(cs)).events ensures Readable(e) {
        StepIsReadable(s, Last(cs), e);
      }
    }
  }

  // ---- Which runs can be stored ----

  /** Ids that fit into a signed column, each started once. */
  predicate StartsFit(log: seq<Event>) {
    && (forall e <- log :: e.kind.CommandStart? && e.command.Some? ==> e.command.value < 0x8000_0000_0000_0000)
    && Backdating.StartedOnce(log)
  }

  predicate StartsCommand(e: Event, id: int) {
    e.kind.CommandStart? && e.command.Some? && e.command.value == id
  }

  /** The row has the sequence number, shell, text, directory and time of this start event. */
  predicate StartedBy(row: CommandRow, e: Event) {
    && e.kind.CommandStart? && e.command == Some(row.sequence)
    && row.shellPid == e.pid && row.command == e.resource && row.startNs == AsI64(e.ns)
    && row.cwd == MetadataValue(e, "cwd", "")
  }

  /** The rows of the command table are the start events of the log. */
  ghost predicate CommandsMatch(commands: map<int, CommandRow>, log: seq<Event>) {
    && (forall id <- commands :: commands[id].sequence == id
          && exists e <- log :: StartsCommand(e, id) && StartedBy(commands[id], e))
    && (forall e <- log :: e.kind.CommandStart? ==> e.command.Some? && e.command.value in commands)
  }

  lemma StartsFitOneMore(log: seq<Event>, e: Event)
    ensures StartsFit(log + [e]) <==>
            && StartsFit(log)
            && (e.kind.CommandStart? && e.command.Some? ==> e.command.value < 0x8000_0000_0000_0000)
            && (e.kind.CommandStart? ==> forall d <- log :: d.kind.CommandStart? ==> d.command != e.command)
  {
    var all := log + [e];
    if StartsFit(all) {
      Backdating.StartedOncePrefix(log, [e]);
      forall d <- log ensures d in all && (e.kind.CommandStart? && d.kind.CommandStart? ==> d.command != e.command) {
        var i :| 0 <= i < |log| && log[i] == d;
        assert all[i] == d && all[|log|] == e;
      }
      assert e in all;
    }
  }

  lemma {:induction false} StoreOneMore(log: seq<Event>, e: Event)
    ensures Store(log + [e]) == if Store(log).Success? then Insert(Store(log).value, e) else Store(log)
  {
    assert (log + [e])[..|log|] == log;
  }

  /** Only a start event can be refused, and what it does to the command table. */
  lemma InsertReadable(t: Tables, e: Event)
    requires Readable(e)
    ensures !e.kind.CommandStart? ==> Insert(t, e).Success?
    ensures e.kind.CommandStart? ==> (Insert(t, e).Success? <==> StartCommand(t.commands, e).Success?)
    ensures Insert(t, e).Success? ==>
              Insert(t, e).value.commands ==
              (if e.kind.CommandStart? then StartCommand(t.commands, e).value
               else if e.kind.CommandEnd? then EndCommand(t.commands, e).value
               else t.commands)
  {
  }

  lemma StartIsStored(commands: map<int, CommandRow>, log: seq<Event>, e: Event)
    requires Readable(e) && e.kind.CommandStart? && StartsFit(log) && CommandsMatch(commands, log)
    ensures StartCommand(commands, e).Success? <==> StartsFit(log + [e])
    ensures StartCommand(commands, e).Success? ==> CommandsMatch(StartCommand(commands, e).value, log + [e])
  {
    StartsFitOneMore(log, e);
    var id: int := e.command.value;
    StollOfDecimal(id);
    if id < 0x8000_0000_0000_0000 {
      assert AsI64(id) == id;
      if id in commands {
        var d :| d in log && StartsCommand(d, id);
        assert d.command == e.command;
      } else {
        forall d <- log ensures d.kind.CommandStart? ==> d.command != e.command {
          assert d.kind.CommandStart? ==> d.command.value in commands;
        }
        KeepMatches(commands, log, e);
        assert e in log + [e] && StartsCommand(e, id);
      }
    }
  }

  lemma KeepMatches(commands: map<int, CommandRow>, log: seq<Event>, e: Event)
    requires CommandsMatch(commands, log)
    ensures forall id <- commands :: commands[id].sequence == id
              && exists d <- log + [e] :: StartsCommand(d, id) && StartedBy(commands[id], d)
  {
    forall id <- commands
      ensures exists d <- log + [e] :: StartsCommand(d, id) && StartedBy(commands[id], d)
    {
      var d :| d in log && StartsCommand(d, id) && StartedBy(commands[id], d);
      assert d in log + [e];
    }
  }

  lemma OthersAreStored(commands: map<int, CommandRow>, log: seq<Event>, e: Event)
    requires Readable(e) && !e.kind.CommandStart? && StartsFit(log) && CommandsMatch(commands, log)
    ensures StartsFit(log + [e])
    ensures CommandsMatch(if e.kind.CommandEnd? then EndCommand(commands, e).value else commands, log + [e])
  {
    StartsFitOneMore(log, e);
    KeepMatches(commands, log, e);
  }

  /**
   A readable log can be stored exactly if its start events have ids below 2^63 and no id
   starts twice; the command table then has one row per start event, with what that event says.
   */
  lemma {:induction false} StoredExactly(log: seq<Event>)
    requires forall e <- log :: Readable(e)
    ensures Store(log).Success? <==> StartsFit(log)
    ensures Store(log).Success? ==> CommandsMatch(Store(log).value.commands, log)
  {
    if log != [] {
      var before, e := Front(log), Last(log);
      assert log == before + [e];
      StoredExactly(before);
      StoreOneMore(before, e);
      StartsFitOneMore(before, e);
      if Store(before).Success? {
        var t := Store(before).value;
        InsertReadable(t, e);
        if e.kind.CommandStart? {
          StartIsStored(t.commands, before, e);
        } else {
          OthersAreStored(t.commands, before, e);
        }
      }
    }
  }

  /** The same for the runs of the tracker. */
  lemma {:induction false} RunIsStoredExactly(setup: Setup, cs: seq<Callback>)
    requires Trace(setup, cs).Accepted? && FreshPids(setup, cs)
    ensures Store(Trace(setup, cs).events).Success? <==> StartsFit(Trace(setup, cs).events)
    ensures Store(Trace(setup, cs).events).Success? ==>
              CommandsMatch(Store(Trace(setup, cs).events).value.commands, Trace(setup, cs).events)
  {
    LogIsReadable(setup, cs);
    StoredExactly(Trace(setup, cs).events);
  }

  // ---- The process table mirrors the tracker ----

  function ProcessUpdate(processes: map<int, ProcessRow>, e: Event): Result<map<int, ProcessRow>, StoreError> {
    match e.kind
    case ProcessExec => ExecProcess(processes, e)
    case ProcessFork => ForkProcess(processes, e)
    case ProcessExit => ExitProcess(processes, e)
    case _ => Success(processes)
  }

  function ProcessUpdates(processes: map<int, ProcessRow>, events: seq<Event>): Result<map<int, ProcessRow>, StoreError> {
    if events == [] then Success(processes)
    else
      var before :- ProcessUpdates(processes, Front(events));
      ProcessUpdate(before, Last(events))
  }

  lemma InsertUpdatesProcesses(t: Tables, e: Event)
    requires Insert(t, e).Success?
    ensures ProcessUpdate(t.processes, e) == Success(Insert(t, e).value.processes)
  {
  }

  lemma {:induction false} StoreUpdatesProcesses(log: seq<Event>, events: seq<Event>)
    requires Store(log + events).Success?
    ensures Store(log).Success?
    ensures ProcessUpdates(Store(log).value.processes, events) == Success(Store(log + events).value.processes)
    decreases |events|
  {
    if events == [] {
      assert log + events == log;
    } else {
      assert log + events == (log + Front(events)) + [Last(events)];
      StoreOneMore(log + Front(events), Last(events));
      StoreUpdatesProcesses(log, Front(events));
      InsertUpdatesProcesses(Store(log + Front(events)).value, Last(events));
    }
  }

  /** Every row has its process, with the same parent and program; only the root may lack a row. */
  predicate Mirrors(s: State, rows: map<int, ProcessRow>) {
    && (forall p <- rows :: p in s.processes && rows[p].ppid == s.processes[p].parentPid
                            && rows[p].executable == s.processes[p].executable)
    && (forall p <- s.processes :: p != s.root ==> p in rows)
  }

  lemma {:induction false} UpdateOne(rows: map<int, ProcessRow>, e: Event)
    ensures ProcessUpdates(rows, [e]) == ProcessUpdate(rows, e)
  {
    assert Front([e]) == [] && Last([e]) == e;
  }

  lemma {:induction false} UpdateTwo(rows: map<int, ProcessRow>, d: Event, e: Event)
    requires e.kind.CommandEnd?
    ensures ProcessUpdates(rows, [d, e]) == ProcessUpdate(rows, d)
  {
    assert Front([d, e]) == [d] && Last([d, e]) == e;
    UpdateOne(rows, d);
  }

  lemma {:induction false} ExecUpdate(rows: map<int, ProcessRow>, e: Event, ppid: I64)
    requires e.kind.ProcessExec? && Printed(e, "ppid", ppid)
    ensures ProcessUpdates(rows, [e]).Success?
    ensures ProcessUpdates(rows, [e]).value ==
            rows[e.pid := if e.pid in rows then rows[e.pid].(executable := e.resource)
                          else ProcessRow(ppid, e.resource, AsI64(e.ns), None)]
  {
    UpdateOne(rows, e);
    StollOfDecimal(ppid);
  }

  lemma {:induction false} ForkUpdate(rows: map<int, ProcessRow>, e: Event, child: I64)
    requires e.kind.ProcessFork? && Printed(e, "child_pid", child) && "executable" in e.metadata && child !in rows
    ensures ProcessUpdates(rows, [e]) ==
            Success(rows[child := ProcessRow(e.pid, e.metadata["executable"], AsI64(e.ns), None)])
  {
    UpdateOne(rows, e);
    StollOfDecimal(child);
  }

  /** An exit only fills in the last columns. */
  predicate SameButExit(a: map<int, ProcessRow>, b: map<int, ProcessRow>) {
    a.Keys == b.Keys && forall p <- a :: a[p].ppid == b[p].ppid && a[p].executable == b[p].executable
  }

  lemma {:induction false} ExitUpdate(rows: map<int, ProcessRow>, events: seq<Event>, code: I64, signal: I64)
    requires 1 <= |events| <= 2 && events[0].kind.ProcessExit? && (|events| == 2 ==> events[1].kind.CommandEnd?)
    requires Printed(events[0], "exit_code", code) && Printed(events[0], "term_signal", signal)
    ensures ProcessUpdates(rows, events).Success?
    ensures SameButExit(rows, ProcessUpdates(rows, events).value)
    ensures var p := events[0].pid;
            ProcessUpdates(rows, events).value ==
            if p in rows then rows[p := rows[p].(exit := Some(ExitRow(AsI64(events[0].ns), code, signal)))] else rows
  {
    StollOfDecimal(code);
    StollOfDecimal(signal);
    if |events| == 1 {
      assert events == [events[0]];
      UpdateOne(rows, events[0]);
    } else {
      assert events == [events[0], events[1]];
      UpdateTwo(rows, events[0], events[1]);
    }
  }

  /** The processes have kept their parents and programs, and there is no new one. */
  predicate SameIdentities(s: State, s1: State) {
    && s1.root == s.root && s1.processes.Keys == s.processes.Keys
    && forall p <- s1.processes ::
         && s1.processes[p].parentPid == s.processes[p].parentPid
         && s1.processes[p].executable == s.processes[p].executable
  }

  lemma QuietIdentities(s: State, c: Callback)
    requires Valid(s) && Step(s, c).Accepted? && (c.Marked? || c.Exited? || c.Called?)
    ensures SameIdentities(s, Step(s, c).state)
  {
    StepKeepsKeys(s, c);
    forall p <- Step(s, c).state.processes ensures p in s.processes && Framed(s, c, p, Step(s, c).state.processes[p]) {
      StepInherits(s, c, p);
    }
  }

  lemma MirrorsStay(s: State, s1: State, rows: map<int, ProcessRow>, rows1: map<int, ProcessRow>)
    requires Mirrors(s, rows) && SameIdentities(s, s1) && SameButExit(rows, rows1)
    ensures Mirrors(s1, rows1)
  {
  }

  /** The exec event names the parent and the program that its process now has. */
  lemma ExecEvent(s: State, c: Callback)
    requires Valid(s) && c.Execed?
    ensures |Step(s, c).events| == 1
    ensures var e, p := Step(s, c).events[0], ProcessFor(s, c.tid);
            && e.kind.ProcessExec? && e.pid == p && p in Step(s, c).state.processes
            && Printed(e, "ppid", Step(s, c).state.processes[p].parentPid)
            && e.resource == Step(s, c).state.processes[p].executable
  {
  }

  /** All processes but this one have kept their parents and programs, and this one its parent. */
  ghost predicate SameButProgram(s: State, s1: State, p: int) {
    && s1.root == s.root && s1.processes.Keys == s.processes.Keys + {p}
    && forall q <- s.processes ::
         && s1.processes[q].parentPid == s.processes[q].parentPid
         && (q != p ==> s1.processes[q].executable == s.processes[q].executable)
  }

  lemma ExecIdentities(s: State, c: Callback)
    requires Valid(s) && c.Execed?
    ensures SameButProgram(s, Step(s, c).state, ProcessFor(s, c.tid))
  {
    ExecEvent(s, c);
    StepKeepsKeys(s, c);
    forall q <- Step(s, c).state.processes
      ensures Inherited(s, c, q, Step(s, c).state.processes[q]) && q in s.processes.Keys + {ProcessFor(s, c.tid)}
    {
      StepInherits(s, c, q);
    }
  }

  lemma ExecRow(s: State, s1: State, p: int, rows: map<int, ProcessRow>, ns: I64)
    requires Mirrors(s, rows) && SameButProgram(s, s1, p)
    ensures var q := s1.processes[p];
            Mirrors(s1, rows[p := if p in rows then rows[p].(executable := q.executable)
                                  else ProcessRow(q.parentPid, q.executable, ns, None)])
  {
  }

  lemma {:induction false} ExecMirrors(s: State, c: Callback, rows: map<int, ProcessRow>)
    requires Valid(s) && PidsFit(s) && c.Execed? && Mirrors(s, rows)
    ensures ProcessUpdates(rows, Step(s, c).events).Success?
    ensures Mirrors(Step(s, c).state, ProcessUpdates(rows, Step(s, c).events).value)
    ensures ProcessUpdates(rows, Step(s, c).events).value.Keys == rows.Keys + {ProcessFor(s, c.tid)}
  {
    var s1, events, p := Step(s, c).state, Step(s, c).events, ProcessFor(s, c.tid);
    ExecEvent(s, c);
    StepKeepsPids(s, c);
    assert events == [events[0]];
    ExecUpdate(rows, events[0], s1.processes[p].parentPid);
    ExecIdentities(s, c);
    ExecRow(s, s1, p, rows, AsI64(events[0].ns));
  }

  lemma {:induction false} ForkMirrors(s: State, c: Callback, rows: map<int, ProcessRow>)
    requires Valid(s) && c.Created? && FreshIn(s, c) && Mirrors(s, rows)
    ensures ProcessUpdates(rows, Step(s, c).events).Success?
    ensures Mirrors(Step(s, c).state, ProcessUpdates(rows, Step(s, c).events).value)
    ensures s.root in ProcessUpdates(rows, Step(s, c).events).value <==> s.root in rows
  {
    if Known(s, c.tid) && !IsThread(c.event, c.cloneFlags) {
      var e := Step(s, c).events[0];
      assert Step(s, c).events == [e];
      ForkUpdate(rows, e, c.child);
    }
  }

  lemma {:induction false} ExitMirrors(s: State, c: Callback, rows: map<int, ProcessRow>)
    requires Valid(s) && c.Exited? && Mirrors(s, rows)
    ensures ProcessUpdates(rows, Step(s, c).events).Success?
    ensures Mirrors(Step(s, c).state, ProcessUpdates(rows, Step(s, c).events).value)
    ensures ProcessUpdates(rows, Step(s, c).events).value.Keys == rows.Keys
  {
    ExitPrints(s, c);
    QuietIdentities(s, c);
    if Step(s, c).events != [] {
      ExitUpdate(rows, Step(s, c).events, c.exitCode, c.termSignal);
    }
    MirrorsStay(s, Step(s, c).state, rows, ProcessUpdates(rows, Step(s, c).events).value);
  }

  /** At most one event, and none about the life of processes. */
  predicate NoLifeEvent(events: seq<Event>) {
    |events| <= 1 && forall e <- events :: !e.kind.ProcessExec? && !e.kind.ProcessFork? && !e.kind.ProcessExit?
  }

  lemma CallHasNoLifeEvent(s: State, c: Callback)
    requires Valid(s) && c.Called?
    ensures NoLifeEvent(Step(s, c).events)
  {
    if Known(s, c.call.tid) {
      SyscallFrame(Find(s, c.call.tid), c.call, c.memory);
    }
  }

  lemma MarkerHasNoLifeEvent(s: State, c: Callback)
    requires Valid(s) && c.Marked? && Step(s, c).Accepted?
    ensures NoLifeEvent(Step(s, c).events)
  {
  }

  lemma {:induction false} NoLifeNoUpdate(rows: map<int, ProcessRow>, events: seq<Event>)
    requires NoLifeEvent(events)
    ensures ProcessUpdates(rows, events) == Success(rows)
  {
    if events != [] {
      assert events == [events[0]];
      UpdateOne(rows, events[0]);
    }
  }

  lemma {:induction false} OtherMirrors(s: State, c: Callback, rows: map<int, ProcessRow>)
    requires Valid(s) && (c.Marked? || c.Called?) && Step(s, c).Accepted? && Mirrors(s, rows)
    ensures ProcessUpdates(rows, Step(s, c).events) == Success(rows)
    ensures Mirrors(Step(s, c).state, rows)
  {
    if c.Called? {
      CallHasNoLifeEvent(s, c);
    } else {
      MarkerHasNoLifeEvent(s, c);
    }
    NoLifeNoUpdate(rows, Step(s, c).events);
    QuietIdentities(s, c);
    MirrorsStay(s, Step(s, c).state, rows, rows);
  }

  lemma {:induction false} StepMirrors(s: State, c: Callback, rows: map<int, ProcessRow>)
    requires Valid(s) && PidsFit(s) && FreshIn(s, c) && Step(s, c).Accepted? && Mirrors(s, rows)
    ensures ProcessUpdates(rows, Step(s, c).events).Success?
    ensures Mirrors(Step(s, c).state, ProcessUpdates(rows, Step(s, c).events).value)
  {
    match c
    case Execed(_, _, _, _) => ExecMirrors(s, c, rows);
    case Created(_, _, _, _, _) => ForkMirrors(s, c, rows);
    case Exited(_, _, _, _) => ExitMirrors(s, c, rows);
    case _ => OtherMirrors(s, c, rows);
  }

  lemma {:induction false} NoRowWithoutLife(log: seq<Event>)
    requires NoLifeEvent(log) && Store(log).Success?
    ensures Store(log).value.processes == map[]
  {
    StoreUpdatesProcesses([], log);
    assert [] + log == log;
    NoLifeNoUpdate(map[], log);
  }

  /**
   After every callback the process table mirrors the tracker: same parents, same programs,
   and a row for every process except perhaps the root.
   */
  lemma {:induction false} ProcessTableMirrors(setup: Setup, cs: seq<Callback>)
    requires Trace(setup, cs).Accepted? && FreshPids(setup, cs) && Store(Trace(setup, cs).events).Success?
    ensures Mirrors(Trace(setup, cs).state, Store(Trace(setup, cs).events).value.processes)
  {
    if cs == [] {
      NoRowWithoutLife(Trace(setup, cs).events);
    } else {
      ReachableIsValid(setup, Front(cs));
      LogIsReadable(setup, Front(cs));
      var s, log := Trace(setup, Front(cs)).state, Trace(setup, Front(cs)).events;
      StoreUpdatesProcesses(log, Step(s, Last(cs)).events);
      ProcessTableMirrors(setup, Front(cs));
      StepMirrors(s, Last(cs), Store(log).value.processes);
    }
  }

  lemma {:induction false} RootRowStep(s: State, c: Callback, rows: map<int, ProcessRow>)
    requires Valid(s) && PidsFit(s) && FreshIn(s, c) && Step(s, c).Accepted? && Mirrors(s, rows)
    requires ProcessUpdates(rows, Step(s, c).events).Success?
    ensures s.root in ProcessUpdates(rows, Step(s, c).events).value <==>
            s.root in rows || (c.Execed? && ProcessFor(s, c.tid) == s.root)
  {
    match c
    case Execed(_, _, _, _) => ExecMirrors(s, c, rows);
    case Created(_, _, _, _, _) => ForkMirrors(s, c, rows);
    case Exited(_, _, _, _) => ExitMirrors(s, c, rows);
    case _ => OtherMirrors(s, c, rows);
  }

  /** Some thread of the root has executed a program. */
  predicate RootExeced(setup: Setup, cs: seq<Callback>) {
    cs != [] &&
    (RootExeced(setup, Front(cs))
     || (Trace(setup, Front(cs)).Accepted? && Last(cs).Execed?
         && ProcessFor(Trace(setup, Front(cs)).state, Last(cs).tid) == setup.pid))
  }

  /** The root has a row exactly from its first exec on. */
  lemma {:induction false} RootRowFromExec(setup: Setup, cs: seq<Callback>)
    requires Trace(setup, cs).Accepted? && FreshPids(setup, cs) && Store(Trace(setup, cs).events).Success?
    ensures setup.pid in Store(Trace(setup, cs).events).value.processes <==> RootExeced(setup, cs)
  {
    if cs == [] {
      NoRowWithoutLife(Trace(setup, cs).events);
    } else {
      ReachableIsValid(setup, Front(cs));
      LogIsReadable(setup, Front(cs));
      var s, log := Trace(setup, Front(cs)).state, Trace(setup, Front(cs)).events;
      StoreUpdatesProcesses(log, Step(s, Last(cs)).events);
      ProcessTableMirrors(setup, Front(cs));
      RootRowFromExec(setup, Front(cs));
      RootRowStep(s, Last(cs), Store(log).value.processes);
    }
  }
}
