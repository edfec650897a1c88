/**
 The command table of a recording: its rows are the brackets of the log, each with what its
 start event and its end event say.
 */
module CommandTable {
  import opened Wrappers
  import opened Text
  import opened Events
  import opened Tracker
  import opened Runs
  import opened Capsule
  import opened MarkerLanguage
  import Attribution
  import Recording
  import Reporting

  // ---- Rows and brackets ----

  function EndOf(e: Event): CommandEndRow {
    CommandEndRow(AsI64(e.ns), MetadataValue(e, "cwd", ""), e.result)
  }

  /** The row of this id is that of the bracket that opens at k; it ends where the bracket closes. */
  predicate IsRow(commands: map<int, CommandRow>, brackets: seq<Event>, k: nat)
    requires k < |brackets|
  {
    && brackets[k].command.Some? && brackets[k].command.value in commands
    && var row := commands[brackets[k].command.value];
       && Recording.StartedBy(row, brackets[k])
       && row.end == (if k + 1 < |brackets| then Some(EndOf(brackets[k + 1])) else None)
  }

  ghost predicate OpensAt(brackets: seq<Event>, k: nat, id: int) {
    k < |brackets| && k % 2 == 0 && brackets[k].command.Some? && brackets[k].command.value == id
  }

  /** There is one row for every bracket, and no other row. */
  ghost predicate RowsAreBrackets(commands: map<int, CommandRow>, brackets: seq<Event>) {
    && (forall k | 0 <= k < |brackets| && k % 2 == 0 :: IsRow(commands, brackets, k))
    && (forall id <- commands :: exists k :: OpensAt(brackets, k, id))
    && (forall j, k, id :: OpensAt(brackets, j, id) && OpensAt(brackets, k, id) ==> j == k)
  }

  lemma BracketedFront(brackets: seq<Event>, e: Event)
    requires Bracketed(brackets + [e])
    ensures Bracketed(brackets) && Brackets(brackets + [e], |brackets|)
  {
    forall k | 0 <= k < |brackets| ensures Brackets(brackets, k) {
      assert Brackets(brackets + [e], k) && (brackets + [e])[k] == brackets[k];
    }
  }

  lemma OpensMore(brackets: seq<Event>, e: Event, k: nat, id: int)
    ensures OpensAt(brackets + [e], k, id) <==>
            OpensAt(brackets, k, id)
            || (k == |brackets| && k % 2 == 0 && e.command.Some? && e.command.value == id)
  {
  }

  /** The row that a start event adds. */
  lemma StartedRow(commands: map<int, CommandRow>, e: Event)
    requires Recording.Readable(e) && e.kind.CommandStart? && e.command.value < 0x8000_0000_0000_0000
    requires StartCommand(commands, e).Success?
    ensures var id: int, after := e.command.value, StartCommand(commands, e).value;
            && id !in commands && id in after && after == commands[id := after[id]]
            && Recording.StartedBy(after[id], e) && after[id].end == None
  {
    StollOfDecimal(e.command.value);
  }

  /** A start event opens a bracket and adds a row. */
  lemma StartAddsRow(commands: map<int, CommandRow>, brackets: seq<Event>, e: Event, row: CommandRow)
    requires RowsAreBrackets(commands, brackets) && |brackets| % 2 == 0
    requires e.command.Some? && e.command.value !in commands && Recording.StartedBy(row, e) && row.end == None
    ensures RowsAreBrackets(commands[e.command.value := row], brackets + [e])
  {
    var all, id: int := brackets + [e], e.command.value;
    var after := commands[id := row];
    forall k, i ensures OpensAt(all, k, i) <==> OpensAt(brackets, k, i) || (k == |brackets| && i == id) {
      OpensMore(brackets, e, k, i);
    }
    forall k | 0 <= k < |all| && k % 2 == 0 ensures IsRow(after, all, k) {
      if k < |brackets| {
        assert IsRow(commands, brackets, k) && all[k] == brackets[k] && all[k + 1] == brackets[k + 1];
      }
    }
    forall i <- after ensures exists k :: OpensAt(all, k, i) {
      if i == id {
        assert OpensAt(all, |brackets|, i);
      } else {
        var k :| OpensAt(brackets, k, i);
        assert OpensAt(all, k, i);
      }
    }
    forall j, k, i | OpensAt(all, j, i) && OpensAt(all, k, i) ensures j == k {
      NoRowNoBracket(commands, brackets, id, j);
      NoRowNoBracket(commands, brackets, id, k);
    }
  }

  lemma NoRowNoBracket(commands: map<int, CommandRow>, brackets: seq<Event>, id: int, k: nat)
    requires RowsAreBrackets(commands, brackets) && id !in commands
    ensures !OpensAt(brackets, k, id)
  {
    assert k < |brackets| && k % 2 == 0 ==> IsRow(commands, brackets, k);
  }

  /** An end event closes the last bracket and completes its row. */
  lemma EndCompletesRow(commands: map<int, CommandRow>, brackets: seq<Event>, e: Event)
    requires RowsAreBrackets(commands, brackets) && |brackets| % 2 == 1
    requires e.command.Some? && e.command == brackets[|brackets| - 1].command
    requires e.command.value < 0x8000_0000_0000_0000
    ensures EndCommand(commands, e).Success?
    ensures RowsAreBrackets(EndCommand(commands, e).value, brackets + [e])
  {
    var all, after, id: int := brackets + [e], EndCommand(commands, e).value, e.command.value;
    var last := |brackets| - 1;
    assert IsRow(commands, brackets, last) && OpensAt(brackets, last, id);
    assert after == commands[id := commands[id].(end := Some(EndOf(e)))];
    forall k, i ensures OpensAt(all, k, i) <==> OpensAt(brackets, k, i) {
      OpensMore(brackets, e, k, i);
    }
    forall k | 0 <= k < |all| && k % 2 == 0 ensures IsRow(after, all, k) {
      assert IsRow(commands, brackets, k) && OpensAt(brackets, k, brackets[k].command.value);
      assert k < last ==> brackets[k].command.value != id && all[k + 1] == brackets[k + 1];
    }
  }

  lemma {:induction false} TableStep(t: Tables, before: seq<Event>, e: Event)
    requires Recording.Readable(e) && Insert(t, e).Success?
    requires e.kind.CommandStart? || e.kind.CommandEnd? ==> e.command.value < 0x8000_0000_0000_0000
    requires Bracketed(CommandEvents(before + [e])) && RowsAreBrackets(t.commands, CommandEvents(before))
    ensures RowsAreBrackets(Insert(t, e).value.commands, CommandEvents(before + [e]))
  {
    var brackets := CommandEvents(before);
    CommandEventsConcat(before, [e]);
    CommandEventsOfOne(e);
    Recording.InsertReadable(t, e);
    if e.kind.CommandStart? || e.kind.CommandEnd? {
      BracketedFront(brackets, e);
      if e.kind.CommandStart? {
        StartedRow(t.commands, e);
        StartAddsRow(t.commands, brackets, e, StartCommand(t.commands, e).value[e.command.value]);
      } else {
        EndCompletesRow(t.commands, brackets, e);
      }
    } else {
      assert brackets + [] == brackets;
    }
  }

  predicate IdsFit(log: seq<Event>) {
    forall e <- log :: e.kind.CommandStart? || e.kind.CommandEnd? ==>
      e.command.Some? && e.command.value < 0x8000_0000_0000_0000
  }

  /** The command table of a readable, bracketed and stored log. */
  lemma {:induction false} TableIsBrackets(log: seq<Event>)
    requires (forall e <- log :: Recording.Readable(e)) && IdsFit(log)
    requires Store(log).Success? && Bracketed(CommandEvents(log))
    ensures RowsAreBrackets(Store(log).value.commands, CommandEvents(log))
  {
    if log != [] {
      var before, e := Front(log), Last(log);
      assert log == before + [e] && e in log && forall d <- before :: d in log;
      CommandEventsConcat(before, [e]);
      CommandEventsOfOne(e);
      if CommandEventOf(e) == [] {
        assert CommandEvents(before) + [] == CommandEvents(before);
      } else {
        BracketedFront(CommandEvents(before), e);
      }
      TableIsBrackets(before);
      TableStep(Store(before).value, before, e);
    }
  }

  // ---- The table of a run ----

  lemma {:induction false} CommandEventIn(log: seq<Event>, e: Event)
    ensures e in CommandEvents(log) <==> e in log && (e.kind.CommandStart? || e.kind.CommandEnd?)
  {
    if log != [] {
      CommandEventIn(Front(log), e);
      assert log == Front(log) + [Last(log)];
    }
  }

  lemma {:induction false} BracketIds(log: seq<Event>)
    requires Bracketed(CommandEvents(log)) && Recording.StartsFit(log)
    ensures IdsFit(log)
  {
    var brackets := CommandEvents(log);
    forall e <- log | e.kind.CommandStart? || e.kind.CommandEnd?
      ensures e.command.Some? && e.command.value < 0x8000_0000_0000_0000
    {
      CommandEventIn(log, e);
      var k :| 0 <= k < |brackets| && brackets[k] == e;
      assert Brackets(brackets, k);
      if k % 2 == 1 {
        assert Brackets(brackets, k - 1);
        CommandEventIn(log, brackets[k - 1]);
      }
    }
  }

  /**
   The command table of every stored run: one row for each bracket of the log, with the shell,
   the text, the directory and the time of its start event and, once the bracket is closed,
   the time, directory and exit code of its end event.
   */
  lemma {:induction false} CommandTableOfRun(setup: Setup, cs: seq<Callback>)
    requires Trace(setup, cs).Accepted? && FreshPids(setup, cs)
    requires Store(Trace(setup, cs).events).Success?
    ensures RowsAreBrackets(Store(Trace(setup, cs).events).value.commands, CommandEvents(Trace(setup, cs).events))
    ensures forall id <- Store(Trace(setup, cs).events).value.commands ::
              Store(Trace(setup, cs).events).value.commands[id].shellPid == setup.pid
  {
    var log := Trace(setup, cs).events;
    Recording.RunIsStoredExactly(setup, cs);
    Recording.LogIsReadable(setup, cs);
    LogIsBracketed(setup, cs);
    BracketIds(log);
    TableIsBrackets(log);
    var commands := Store(log).value.commands;
    forall id <- commands ensures commands[id].shellPid == setup.pid {
      var e :| e in log && Recording.StartsCommand(e, id) && Recording.StartedBy(commands[id], e);
      Attribution.EventsCarryCommand(setup, cs, e);
    }
  }

  // ---- The shell's own end, and command mode ----

  lemma {:induction false} BracketsGrow(log: seq<Event>, longer: seq<Event>)
    requires log <= longer
    ensures CommandEvents(log) <= CommandEvents(longer)
  {
    assert longer == log + longer[|log|..];
    CommandEventsConcat(log, longer[|log|..]);
  }

  /** A run in which the shell ends while a command is running, and what may follow. */
  ghost predicate EndsRunning(setup: Setup, cs: seq<Callback>, exit: Callback, more: seq<Callback>, id: U64) {
    && Trace(setup, cs + [exit] + more).Accepted? && FreshPids(setup, cs + [exit] + more)
    && Trace(setup, cs).Accepted? && FreshPids(setup, cs)
    && exit.Exited? && exit.tid == setup.pid && Running(Trace(setup, cs).state) == Some(id)
  }

  /** What the end event of a command says that the shell's exit has closed. */
  predicate EndedBy(e: Event, exit: Callback, cwd: string)
    requires exit.Exited?
  {
    && e.ns == exit.ns && Reporting.StatusOf(exit.exitCode, exit.termSignal, e.result)
    && e.metadata == map["cwd" := cwd]
  }

  /** The end event that the shell's exit adds. */
  lemma {:induction false} ExitAddsEnd(s: State, log: seq<Event>, exit: Callback)
    requires Valid(s) && exit.Exited? && exit.tid == s.root && Running(s).Some?
    ensures var all := CommandEvents(log + Step(s, exit).events);
            && |all| == |CommandEvents(log)| + 1 && CommandEvents(log) <= all
            && EndedBy(all[|all| - 1], exit, s.processes[s.root].cwd)
  {
    var events := Step(s, exit).events;
    assert ProcessFor(s, s.root) == s.root;
    Reporting.ExitIsReported(s, exit);
    Reporting.ExitEndsCommand(s, exit);
    EndAfterExit(events);
    CommandEventsConcat(log, events);
  }

  lemma {:induction false} RunAddsEnd(setup: Setup, cs: seq<Callback>, exit: Callback)
    requires exit.Exited? && exit.tid == setup.pid && Trace(setup, cs).Accepted? && FreshPids(setup, cs)
    requires Running(Trace(setup, cs).state).Some?
    ensures setup.pid in Trace(setup, cs).state.processes && Trace(setup, cs + [exit]).Accepted?
    ensures var before, all := CommandEvents(Trace(setup, cs).events), CommandEvents(Trace(setup, cs + [exit]).events);
            && |all| == |before| + 1 && before <= all
            && EndedBy(all[|before|], exit, Trace(setup, cs).state.processes[setup.pid].cwd)
  {
    ReachableIsValid(setup, cs);
    ExitAddsEnd(Trace(setup, cs).state, Trace(setup, cs).events, exit);
    assert Front(cs + [exit]) == cs && Last(cs + [exit]) == exit;
  }

  /** The bracket of this command is closed at k as the shell's exit demands. */
  predicate ClosedAt(brackets: seq<Event>, k: nat, id: U64, exit: Callback, cwd: string)
    requires exit.Exited?
  {
    k % 2 == 0 && k + 1 < |brackets| && brackets[k].command == Some(id) && EndedBy(brackets[k + 1], exit, cwd)
  }

  lemma OpenIsClosed(before: seq<Event>, all: seq<Event>, id: U64, exit: Callback, cwd: string)
    requires exit.Exited? && LeftOpen(before) == Some(id)
    requires |all| == |before| + 1 && before <= all && EndedBy(all[|before|], exit, cwd)
    ensures |before| > 0 && ClosedAt(all, |before| - 1, id, exit, cwd)
  {
    assert before[|before| - 1] == all[|before| - 1];
  }

  lemma {:induction false} LastIsClosed(setup: Setup, cs: seq<Callback>, exit: Callback, id: U64) returns (k: nat)
    requires exit.Exited? && exit.tid == setup.pid && Trace(setup, cs).Accepted? && FreshPids(setup, cs)
    requires Running(Trace(setup, cs).state) == Some(id)
    ensures setup.pid in Trace(setup, cs).state.processes && Trace(setup, cs + [exit]).Accepted?
    ensures var all := CommandEvents(Trace(setup, cs + [exit]).events);
            ClosedAt(all, k, id, exit, Trace(setup, cs).state.processes[setup.pid].cwd)
  {
    LogIsBracketed(setup, cs);
    RunAddsEnd(setup, cs, exit);
    var before, all := CommandEvents(Trace(setup, cs).events), CommandEvents(Trace(setup, cs + [exit]).events);
    OpenIsClosed(before, all, id, exit, Trace(setup, cs).state.processes[setup.pid].cwd);
    k := |before| - 1;
  }

  lemma {:induction false} RunKeepsBrackets(setup: Setup, cs: seq<Callback>, more: seq<Callback>)
    requires Trace(setup, cs + more).Accepted?
    ensures Trace(setup, cs).Accepted?
    ensures CommandEvents(Trace(setup, cs).events) <= CommandEvents(Trace(setup, cs + more).events)
  {
    LogGrows(setup, cs, more);
    BracketsGrow(Trace(setup, cs).events, Trace(setup, cs + more).events);
  }

  lemma StaysClosed(brackets: seq<Event>, all: seq<Event>, k: nat, id: U64, exit: Callback, cwd: string)
    requires exit.Exited? && ClosedAt(brackets, k, id, exit, cwd) && brackets <= all
    ensures ClosedAt(all, k, id, exit, cwd)
  {
  }

  lemma {:induction false} BracketsStayClosed(
    setup: Setup, run: seq<Callback>, more: seq<Callback>, k: nat, id: U64, exit: Callback, cwd: string)
    requires Trace(setup, run + more).Accepted? && Trace(setup, run).Accepted? && exit.Exited?
    requires ClosedAt(CommandEvents(Trace(setup, run).events), k, id, exit, cwd)
    ensures ClosedAt(CommandEvents(Trace(setup, run + more).events), k, id, exit, cwd)
  {
    RunKeepsBrackets(setup, run, more);
    StaysClosed(CommandEvents(Trace(setup, run).events), CommandEvents(Trace(setup, run + more).events), k, id, exit, cwd);
  }

  /** It closes the bracket that is open, whatever follows. */
  lemma {:induction false} ExitClosesBracket(
    setup: Setup, cs: seq<Callback>, exit: Callback, more: seq<Callback>, id: U64)
    returns (k: nat)
    requires EndsRunning(setup, cs, exit, more, id)
    ensures setup.pid in Trace(setup, cs).state.processes
    ensures ClosedAt(CommandEvents(Trace(setup, cs + [exit] + more).events), k, id, exit,
                     Trace(setup, cs).state.processes[setup.pid].cwd)
  {
    k := LastIsClosed(setup, cs, exit, id);
    BracketsStayClosed(setup, cs + [exit], more, k, id, exit, Trace(setup, cs).state.processes[setup.pid].cwd);
  }

  /**
   If the shell ends while a command is running, the command's row has the time of that end,
   the shell's directory, and the exit code, or 128 and the signal, whatever follows.
   */
  lemma {:induction false} ShellExitEndsRow(
    setup: Setup, cs: seq<Callback>, exit: Callback, more: seq<Callback>, id: U64)
    requires EndsRunning(setup, cs, exit, more, id)
    requires Store(Trace(setup, cs + [exit] + more).events).Success?
    ensures setup.pid in Trace(setup, cs).state.processes
    ensures var commands := Store(Trace(setup, cs + [exit] + more).events).value.commands;
            && id in commands && commands[id].end.Some?
            && commands[id].end.value.ns == AsI64(exit.ns)
            && Reporting.StatusOf(exit.exitCode, exit.termSignal, commands[id].end.value.exitCode)
            && commands[id].end.value.cwd == Trace(setup, cs).state.processes[setup.pid].cwd
  {
    var run := cs + [exit] + more;
    var k := ExitClosesBracket(setup, cs, exit, more, id);
    CommandTableOfRun(setup, run);
    assert IsRow(Store(Trace(setup, run).events).value.commands, CommandEvents(Trace(setup, run).events), k);
  }

  /** In command mode the row of command 1 has the command line, the directory and the time of the setup. */
  lemma {:induction false} CommandModeRow(setup: Setup, cs: seq<Callback>)
    requires setup.rootCommand.Some? && Trace(setup, cs).Accepted? && FreshPids(setup, cs)
    requires Store(Trace(setup, cs).events).Success?
    ensures var commands := Store(Trace(setup, cs).events).value.commands;
            && 1 in commands && commands[1].sequence == 1 && commands[1].shellPid == setup.pid
            && commands[1].command == setup.rootCommand.value && commands[1].cwd == setup.cwd
            && commands[1].startNs == AsI64(setup.ns)
  {
    var log := Trace(setup, cs).events;
    Reporting.FirstEvent(setup);
    Reporting.FirstStays(setup, cs);
    assert [log[0]] <= log;
    BracketsGrow([log[0]], log);
    CommandEventsOfOne(log[0]);
    CommandTableOfRun(setup, cs);
    assert IsRow(Store(log).value.commands, CommandEvents(log), 0);
  }
}
