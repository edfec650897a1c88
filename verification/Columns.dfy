/**
 The columns of the event table and of the process table, one by one: what a row says about
 the event, or about the life of the process, that it stands for.
 */
module Columns {
  import opened Wrappers
  import opened Text
  import opened Events
  import opened Tracker
  import opened Runs
  import opened Capsule
  import Queries
  import Recording
  import Reporting

  // ---- The event table ----

  /** An unsigned number kept in a signed column of 64 bits. */
  predicate KeptAs(n: U64, column: int) {
    && (n < 0x8000_0000_0000_0000 ==> column == n)
    && (n >= 0x8000_0000_0000_0000 ==> column == n - 0x1_0000_0000_0000_0000)
  }

  predicate RowSays(row: EventRow, e: Event) {
    && KeptAs(e.ns, row.ns)
    && row.pid == e.pid && row.tid == e.tid
    && row.kind == e.kind && row.resource == e.resource
    && row.result == e.result && row.errno == e.errno
    && row.metadata == e.metadata
    && (row.command.None? <==> e.command.None?)
    && (e.command.Some? ==> row.command.Some? && KeptAs(e.command.value, row.command.value))
  }

  /** A stored log has one row for each event, in the same order, with the same columns. */
  lemma {:induction false} EventTableIsLog(log: seq<Event>)
    requires Store(log).Success?
    ensures |Store(log).value.events| == |log|
    ensures forall i | 0 <= i < |log| :: RowSays(Store(log).value.events[i], log[i])
  {
    Queries.StoreKeepsRows(log);
    if log != [] {
      Queries.RowAt(log, 0);
    }
    forall i | 0 <= i < |log| ensures RowSays(Store(log).value.events[i], log[i]) {
      Queries.RowAt(log, i);
    }
  }

  // ---- The process table ----

  /** The process that a callback brings into the table, if it is not there yet. */
  function BornBy(before: State, c: Callback): Option<int> {
    if c.Execed? then Some(ProcessFor(before, c.tid))
    else if c.Created? && Known(before, c.tid) && !IsThread(c.event, c.cloneFlags) then Some(c.child)
    else None
  }

  function BirthsAfter(births: map<int, U64>, before: State, c: Callback): map<int, U64> {
    var born := BornBy(before, c);
    if born.Some? && born.value !in births then births[born.value := Time(c)] else births
  }

  /** When each process was first forked or first executed a program. */
  function Births(setup: Setup, cs: seq<Callback>): map<int, U64> {
    if cs == [] then map[]
    else
      var births, before := Births(setup, Front(cs)), Trace(setup, Front(cs));
      if before.Accepted? then BirthsAfter(births, before.state, Last(cs)) else births
  }

  /** The callback ends a process: its leader exits. */
  predicate EndsProcess(before: State, c: Callback) {
    c.Exited? && ProcessFor(before, c.tid) == c.tid && c.tid in before.processes
  }

  function EndsAfter(ends: map<int, ExitRow>, before: State, c: Callback): map<int, ExitRow> {
    if EndsProcess(before, c) then ends[c.tid := ExitRow(AsI64(c.ns), c.exitCode, c.termSignal)] else ends
  }

  /** How each process ended. */
  function Ends(setup: Setup, cs: seq<Callback>): map<int, ExitRow> {
    if cs == [] then map[]
    else
      var ends, before := Ends(setup, Front(cs)), Trace(setup, Front(cs));
      if before.Accepted? then EndsAfter(ends, before.state, Last(cs)) else ends
  }

  /** Every row has the time of the process's birth and, once it has ended, how that was. */
  predicate RowsTellLives(rows: map<int, ProcessRow>, births: map<int, U64>, ends: map<int, ExitRow>) {
    && rows.Keys == births.Keys
    && forall p <- rows ::
         && rows[p].startNs == AsI64(births[p])
         && rows[p].exit == if p in ends then Some(ends[p]) else None
  }

  lemma BirthTold(rows: map<int, ProcessRow>, births: map<int, U64>, ends: map<int, ExitRow>,
                  p: int, row: ProcessRow, ns: U64)
    requires RowsTellLives(rows, births, ends) && p !in rows && p !in ends
    requires row.startNs == AsI64(ns) && row.exit == None
    ensures RowsTellLives(rows[p := row], births[p := ns], ends)
  {
  }

  lemma ProgramTold(rows: map<int, ProcessRow>, births: map<int, U64>, ends: map<int, ExitRow>, p: int, program: string)
    requires RowsTellLives(rows, births, ends) && p in rows
    ensures RowsTellLives(rows[p := rows[p].(executable := program)], births, ends)
  {
  }

  lemma {:induction false} ExecTells(
    s: State, c: Callback, rows: map<int, ProcessRow>, births: map<int, U64>, ends: map<int, ExitRow>)
    requires Valid(s) && Recording.PidsFit(s) && c.Execed?
    requires RowsTellLives(rows, births, ends)
    requires ProcessFor(s, c.tid) !in rows ==> ProcessFor(s, c.tid) !in ends
    ensures Recording.ProcessUpdates(rows, Step(s, c).events).Success?
    ensures var p := ProcessFor(s, c.tid);
            RowsTellLives(Recording.ProcessUpdates(rows, Step(s, c).events).value,
                          if p in births then births else births[p := c.ns], ends)
  {
    var p, events := ProcessFor(s, c.tid), Step(s, c).events;
    Reporting.ExecIsReported(s, c);
    Recording.StepKeepsPids(s, c);
    assert events == [events[0]];
    Recording.ExecUpdate(rows, events[0], Step(s, c).state.processes[p].parentPid);
    if p in rows {
      ProgramTold(rows, births, ends, p, events[0].resource);
    } else {
      BirthTold(rows, births, ends, p, Recording.ProcessUpdates(rows, events).value[p], c.ns);
    }
  }

  lemma {:induction false} ForkTells(
    s: State, c: Callback, rows: map<int, ProcessRow>, births: map<int, U64>, ends: map<int, ExitRow>)
    requires Valid(s) && FreshIn(s, c) && c.Created? && Known(s, c.tid) && !IsThread(c.event, c.cloneFlags)
    requires RowsTellLives(rows, births, ends) && c.child !in rows && c.child !in ends
    ensures Recording.ProcessUpdates(rows, Step(s, c).events).Success?
    ensures RowsTellLives(Recording.ProcessUpdates(rows, Step(s, c).events).value, births[c.child := c.ns], ends)
  {
    var events := Step(s, c).events;
    Reporting.FlagIsBit16(c.cloneFlags);
    Reporting.ForkIsReported(s, c);
    assert events == [events[0]];
    Recording.ForkUpdate(rows, events[0], c.child);
    BirthTold(rows, births, ends, c.child, Recording.ProcessUpdates(rows, events).value[c.child], c.ns);
  }

  lemma {:induction false} ExitTells(
    s: State, c: Callback, rows: map<int, ProcessRow>, births: map<int, U64>, ends: map<int, ExitRow>)
    requires Valid(s) && c.Exited? && ProcessFor(s, c.tid) == c.tid && c.tid in s.processes
    requires RowsTellLives(rows, births, ends)
    ensures Recording.ProcessUpdates(rows, Step(s, c).events).Success?
    ensures RowsTellLives(Recording.ProcessUpdates(rows, Step(s, c).events).value, births,
                          ends[c.tid := ExitRow(AsI64(c.ns), c.exitCode, c.termSignal)])
  {
    Reporting.ExitIsReported(s, c);
    Reporting.ExitEndsCommand(s, c);
    Recording.ExitUpdate(rows, Step(s, c).events, c.exitCode, c.termSignal);
  }

  lemma {:induction false} NothingTold(s: State, c: Callback, rows: map<int, ProcessRow>)
    requires Valid(s) && Step(s, c).Accepted? && BornBy(s, c).None?
    requires !EndsProcess(s, c)
    ensures Recording.ProcessUpdates(rows, Step(s, c).events) == Success(rows)
  {
    if c.Called? {
      Recording.CallHasNoLifeEvent(s, c);
    } else if c.Marked? {
      Recording.MarkerHasNoLifeEvent(s, c);
    } else if c.Exited? {
      Reporting.ThreadExitIsSilent(s, c);
    }
    Recording.NoLifeNoUpdate(rows, Step(s, c).events);
  }

  lemma {:induction false} EndsAreKnown(setup: Setup, cs: seq<Callback>)
    requires Trace(setup, cs).Accepted? && FreshPids(setup, cs)
    ensures Ends(setup, cs).Keys <= Trace(setup, cs).state.processes.Keys
    ensures Ends(setup, cs).Keys <= Gone(setup, cs)
  {
    if cs != [] {
      EndsAreKnown(setup, Front(cs));
      ReachableIsValid(setup, cs);
    }
  }

  /** One callback, seen in all three places. */
  lemma {:induction false} StepTells(
    s: State, c: Callback, rows: map<int, ProcessRow>, births: map<int, U64>, ends: map<int, ExitRow>)
    requires Valid(s) && FreshIn(s, c) && Step(s, c).Accepted? && Recording.PidsFit(s)
    requires RowsTellLives(rows, births, ends) && rows.Keys <= s.processes.Keys && ends.Keys <= s.processes.Keys
    requires c.Execed? ==> ProcessFor(s, c.tid) !in ends
    ensures Recording.ProcessUpdates(rows, Step(s, c).events).Success?
    ensures RowsTellLives(Recording.ProcessUpdates(rows, Step(s, c).events).value,
                          BirthsAfter(births, s, c), EndsAfter(ends, s, c))
  {
    if c.Execed? {
      ExecTells(s, c, rows, births, ends);
    } else if BornBy(s, c).Some? {
      ForkTells(s, c, rows, births, ends);
    } else if EndsProcess(s, c) {
      ExitTells(s, c, rows, births, ends);
    } else {
      NothingTold(s, c, rows);
    }
  }

  /** What the run so far gives a callback that starts from it. */
  lemma {:induction false} RunIsReady(setup: Setup, cs: seq<Callback>)
    requires cs != [] && Trace(setup, cs).Accepted? && FreshPids(setup, cs) && NoAfterExit(setup, cs)
    ensures Trace(setup, Front(cs)).Accepted?
    ensures var s, c := Trace(setup, Front(cs)).state, Last(cs);
            && Valid(s) && FreshIn(s, c) && Step(s, c).Accepted? && Recording.PidsFit(s)
            && Ends(setup, Front(cs)).Keys <= s.processes.Keys
            && (c.Execed? ==> ProcessFor(s, c.tid) !in Ends(setup, Front(cs)))
  {
    ReachableIsValid(setup, Front(cs));
    Recording.LogIsReadable(setup, Front(cs));
    EndsAreKnown(setup, Front(cs));
  }

  lemma {:induction false} RunTells(setup: Setup, cs: seq<Callback>, rows: map<int, ProcessRow>)
    requires cs != [] && Trace(setup, cs).Accepted? && FreshPids(setup, cs) && NoAfterExit(setup, cs)
    requires Trace(setup, Front(cs)).Accepted? && rows.Keys <= Trace(setup, Front(cs)).state.processes.Keys
    requires RowsTellLives(rows, Births(setup, Front(cs)), Ends(setup, Front(cs)))
    ensures var events := Step(Trace(setup, Front(cs)).state, Last(cs)).events;
            && Recording.ProcessUpdates(rows, events).Success?
            && RowsTellLives(Recording.ProcessUpdates(rows, events).value, Births(setup, cs), Ends(setup, cs))
  {
    var s := Trace(setup, Front(cs)).state;
    RunIsReady(setup, cs);
    StepTells(s, Last(cs), rows, Births(setup, Front(cs)), Ends(setup, Front(cs)));
  }

  lemma {:induction false} NextTells(setup: Setup, cs: seq<Callback>, before: seq<Event>, log: seq<Event>)
    requires cs != [] && Trace(setup, cs).Accepted? && FreshPids(setup, cs) && NoAfterExit(setup, cs)
    requires Trace(setup, Front(cs)).Accepted? && log == before + Step(Trace(setup, Front(cs)).state, Last(cs)).events
    requires Store(before).Success? && Store(log).Success?
    requires Store(before).value.processes.Keys <= Trace(setup, Front(cs)).state.processes.Keys
    requires RowsTellLives(Store(before).value.processes, Births(setup, Front(cs)), Ends(setup, Front(cs)))
    ensures RowsTellLives(Store(log).value.processes, Births(setup, cs), Ends(setup, cs))
  {
    Recording.StoreUpdatesProcesses(before, Step(Trace(setup, Front(cs)).state, Last(cs)).events);
    RunTells(setup, cs, Store(before).value.processes);
  }

  lemma {:induction false} ShorterIsStored(setup: Setup, cs: seq<Callback>)
    requires cs != [] && Trace(setup, cs).Accepted? && Store(Trace(setup, cs).events).Success?
    ensures Trace(setup, Front(cs)).Accepted? && Store(Trace(setup, Front(cs)).events).Success?
  {
    Recording.StoreUpdatesProcesses(Trace(setup, Front(cs)).events,
                                    Step(Trace(setup, Front(cs)).state, Last(cs)).events);
  }

  lemma {:induction false} SetupTells(setup: Setup)
    requires Store(Trace(setup, []).events).Success?
    ensures RowsTellLives(Store(Trace(setup, []).events).value.processes, Births(setup, []), Ends(setup, []))
  {
    Recording.NoRowWithoutLife(Trace(setup, []).events);
  }

  lemma MirrorsAreKnown(s: State, rows: map<int, ProcessRow>)
    requires Recording.Mirrors(s, rows)
    ensures rows.Keys <= s.processes.Keys
  {
    forall p <- rows.Keys ensures p in s.processes.Keys {
      assert p in rows;
    }
  }

  lemma {:induction false} MirroredKeys(setup: Setup, cs: seq<Callback>)
    requires Trace(setup, cs).Accepted? && FreshPids(setup, cs) && Store(Trace(setup, cs).events).Success?
    ensures Store(Trace(setup, cs).events).value.processes.Keys <= Trace(setup, cs).state.processes.Keys
  {
    Recording.ProcessTableMirrors(setup, cs);
    MirrorsAreKnown(Trace(setup, cs).state, Store(Trace(setup, cs).events).value.processes);
  }

  /**
   In the capsule of every run in which nothing follows a process's exit, the process table has
   a row for each process that was forked or has executed a program, with the time at which
   that first happened, and with the time, exit code and signal of its end if it has ended.
   */
  lemma {:induction false} ProcessTableTellsLives(setup: Setup, cs: seq<Callback>)
    requires Trace(setup, cs).Accepted? && FreshPids(setup, cs) && NoAfterExit(setup, cs)
    requires Store(Trace(setup, cs).events).Success?
    ensures RowsTellLives(Store(Trace(setup, cs).events).value.processes, Births(setup, cs), Ends(setup, cs))
  {
    if cs == [] {
      SetupTells(setup);
    } else {
      ShorterIsStored(setup, cs);
      ProcessTableTellsLives(setup, Front(cs));
      MirroredKeys(setup, Front(cs));
      NextTells(setup, cs, Trace(setup, Front(cs)).events, Trace(setup, cs).events);
    }
  }

  // ---- Tables of any log ----

  lemma UpdateKeepsRow(rows: map<int, ProcessRow>, e: Event, p: int)
    requires Recording.ProcessUpdate(rows, e).Success? && p in rows
    ensures var after := Recording.ProcessUpdate(rows, e).value;
            && p in after && after[p].ppid == rows[p].ppid && after[p].startNs == rows[p].startNs
            && after[p].executable == (if e.kind.ProcessExec? && e.pid == p then e.resource else rows[p].executable)
            && (!(e.kind.ProcessExit? && e.pid == p) ==> after[p].exit == rows[p].exit)
  {
  }

  /**
   An event changes no row of the process table but for the program after an exec and the end
   after an exit of that process; a fork whose child has a row already changes nothing.
   */
  lemma {:induction false} RowsOfLivesStay(log: seq<Event>, e: Event, p: int)
    requires Store(log + [e]).Success?
    ensures Store(log).Success?
    ensures var before, after := Store(log).value.processes, Store(log + [e]).value.processes;
            p in before ==>
              && p in after && after[p].ppid == before[p].ppid && after[p].startNs == before[p].startNs
              && after[p].executable == (if e.kind.ProcessExec? && e.pid == p then e.resource else before[p].executable)
              && (!(e.kind.ProcessExit? && e.pid == p) ==> after[p].exit == before[p].exit)
  {
    Recording.StoreUpdatesProcesses(log, [e]);
    var before := Store(log).value.processes;
    Recording.UpdateOne(before, e);
    if p in before {
      UpdateKeepsRow(before, e, p);
    }
  }

  predicate Balanced(network: map<string, NetworkRow>) {
    forall r <- network :: network[r].connects == network[r].successes + network[r].failures
  }

  lemma UpsertKeepsBalance(network: map<string, NetworkRow>, e: Event)
    requires Balanced(network)
    ensures Balanced(UpsertNetwork(network, e))
  {
  }

  /** Every attempt is a success or a failure, whatever its errno is. */
  lemma {:induction false} NetworkRowsBalance(log: seq<Event>)
    requires Store(log).Success?
    ensures Balanced(Store(log).value.network)
  {
    if log != [] {
      var before, e := log[..|log| - 1], log[|log| - 1];
      NetworkRowsBalance(before);
      Queries.InsertFrame(Store(before).value, e);
      UpsertKeepsBalance(Store(before).value.network, e);
    }
  }

  predicate SequencesDiffer(commands: map<int, CommandRow>) {
    forall c <- commands, d <- commands :: commands[c].sequence == commands[d].sequence ==> c == d
  }

  lemma StartKeepsSequences(commands: map<int, CommandRow>, e: Event)
    requires SequencesDiffer(commands) && StartCommand(commands, e).Success?
    ensures SequencesDiffer(StartCommand(commands, e).value)
  {
  }

  lemma EndKeepsSequences(commands: map<int, CommandRow>, e: Event)
    requires SequencesDiffer(commands) && EndCommand(commands, e).Success?
    ensures SequencesDiffer(EndCommand(commands, e).value)
  {
  }

  lemma InsertKeepsSequences(t: Tables, e: Event)
    requires Insert(t, e).Success? && SequencesDiffer(t.commands)
    ensures SequencesDiffer(Insert(t, e).value.commands)
  {
    if e.kind.CommandStart? {
      StartKeepsSequences(t.commands, e);
    } else if e.kind.CommandEnd? {
      EndKeepsSequences(t.commands, e);
    }
  }

  /** No two commands of a capsule have the same sequence number. */
  lemma {:induction false} SequencesAreUnique(log: seq<Event>)
    requires Store(log).Success?
    ensures SequencesDiffer(Store(log).value.commands)
  {
    if log != [] {
      SequencesAreUnique(log[..|log| - 1]);
      InsertKeepsSequences(Store(log[..|log| - 1]).value, log[|log| - 1]);
    }
  }
}
