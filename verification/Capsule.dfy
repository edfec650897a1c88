/**
 The writer of a capsule: every event becomes a row of the event table and updates the
 summary tables in place. Tables are maps from their primary keys to rows.
 */
module Capsule {
  import opened Wrappers
  import opened Text
  import opened Events

  datatype EventRow = EventRow(
    ns: I64, pid: int, tid: int, kind: EventType, resource: string, result: int, errno: int,
    metadata: map<string, string>, command: Option<I64>)

  datatype CommandEndRow = CommandEndRow(ns: I64, cwd: string, exitCode: int)

  datatype CommandRow = CommandRow(
    sequence: I64, shellPid: int, command: string, cwd: string, startNs: I64, end: Option<CommandEndRow>)

  datatype ExitRow = ExitRow(ns: I64, exitCode: I64, termSignal: I64)

  datatype ProcessRow = ProcessRow(ppid: int, executable: string, startNs: I64, exit: Option<ExitRow>)

  datatype FileRow = FileRow(readCalls: nat, writeCalls: nat, bytesRead: nat, bytesWritten: nat)

  datatype NetworkRow = NetworkRow(connects: nat, successes: nat, failures: nat, lastErrno: int)

  datatype Tables = Tables(
    events: seq<EventRow>,
    commands: map<int, CommandRow>,
    processes: map<int, ProcessRow>,
    files: map<string, FileRow>,
    network: map<string, NetworkRow>)

  datatype StoreError = MissingCommandId | BadNumber | DuplicateCommand

  const EMPTY := Tables([], map[], map[], map[], map[])

  function RowOf(e: Event): EventRow {
    EventRow(AsI64(e.ns), e.pid, e.tid, e.kind, e.resource, e.result, e.errno, e.metadata,
             if e.command.Some? then Some(AsI64(e.command.value)) else None)
  }

  function MetadataValue(e: Event, key: string, fallback: string): string {
    if key in e.metadata then e.metadata[key] else fallback
  }

  function Clamp(n: int): nat {
    if n < 0 then 0 else n
  }

  /** The rows that one event adds to the rows already there; conflicting rows are added up. */
  function FileDelta(e: Event): FileRow {
    if e.kind.FileRead? then FileRow(1, 0, Clamp(e.result), 0) else FileRow(0, 1, 0, Clamp(e.result))
  }

  function AddFile(a: FileRow, b: FileRow): FileRow {
    FileRow(a.readCalls + b.readCalls, a.writeCalls + b.writeCalls,
            a.bytesRead + b.bytesRead, a.bytesWritten + b.bytesWritten)
  }

  function UpsertFile(files: map<string, FileRow>, e: Event): map<string, FileRow> {
    files[e.resource := if e.resource in files then AddFile(files[e.resource], FileDelta(e)) else FileDelta(e)]
  }

  function UpsertNetwork(network: map<string, NetworkRow>, e: Event): map<string, NetworkRow> {
    var ok, failed := if e.errno == 0 then 1 else 0, if e.errno == 0 then 0 else 1;
    network[e.resource :=
      if e.resource in network then
        var row := network[e.resource];
        NetworkRow(row.connects + 1, row.successes + ok, row.failures + failed, e.errno)
      else NetworkRow(1, ok, failed, e.errno)]
  }

  function StartCommand(commands: map<int, CommandRow>, e: Event): Result<map<int, CommandRow>, StoreError> {
    if e.command.None? then Failure(MissingCommandId)
    else
      var id := AsI64(e.command.value);
      match Stoll(MetadataValue(e, "sequence", "0"))
      case None => Failure(BadNumber)
      case Some(sequence) =>
        if id in commands || (exists c <- commands :: commands[c].sequence == sequence) then
          Failure(DuplicateCommand)
        else
          Success(commands[id := CommandRow(
            sequence, e.pid, e.resource, MetadataValue(e, "cwd", ""), AsI64(e.ns), None)])
  }

  function EndCommand(commands: map<int, CommandRow>, e: Event): Result<map<int, CommandRow>, StoreError> {
    if e.command.None? then Failure(MissingCommandId)
    else
      var id := AsI64(e.command.value);
      Success(if id in commands then
                commands[id := commands[id].(end := Some(
                  CommandEndRow(AsI64(e.ns), MetadataValue(e, "cwd", ""), e.result)))]
              else commands)
  }

  function ExecProcess(processes: map<int, ProcessRow>, e: Event): Result<map<int, ProcessRow>, StoreError> {
    match Stoll(MetadataValue(e, "ppid", "0"))
    case None => Failure(BadNumber)
    case Some(ppid) =>
      Success(processes[e.pid :=
        if e.pid in processes then processes[e.pid].(executable := e.resource)
        else ProcessRow(ppid, e.resource, AsI64(e.ns), None)])
  }

  function ForkProcess(processes: map<int, ProcessRow>, e: Event): Result<map<int, ProcessRow>, StoreError> {
    match Stoll(MetadataValue(e, "child_pid", "0"))
    case None => Failure(BadNumber)
    case Some(child) =>
      Success(if child in processes then processes
              else processes[child := ProcessRow(
                e.pid, MetadataValue(e, "executable", "<unknown>"), AsI64(e.ns), None)])
  }

  function ExitProcess(processes: map<int, ProcessRow>, e: Event): Result<map<int, ProcessRow>, StoreError> {
    match (Stoll(MetadataValue(e, "exit_code", "-1")), Stoll(MetadataValue(e, "term_signal", "0")))
    case (Some(code), Some(signal)) =>
      Success(if e.pid in processes then
                processes[e.pid := processes[e.pid].(exit := Some(ExitRow(AsI64(e.ns), code, signal)))]
              else processes)
    case _ => Failure(BadNumber)
  }

  /** One event, with its exceptions; a failed event makes the whole capsule be dropped. */
  function Insert(t: Tables, e: Event): Result<Tables, StoreError> {
    var t1 := t.(events := t.events + [RowOf(e)]);
    match e.kind
    case CommandStart =>
      var commands :- StartCommand(t.commands, e);
      Success(t1.(commands := commands))
    case CommandEnd =>
      var commands :- EndCommand(t.commands, e);
      Success(t1.(commands := commands))
    case FileRead | FileWrite => Success(t1.(files := UpsertFile(t.files, e)))
    case NetworkConnect => Success(t1.(network := UpsertNetwork(t.network, e)))
    case ProcessExec =>
      var processes :- ExecProcess(t.processes, e);
      Success(t1.(processes := processes))
    case ProcessFork =>
      var processes :- ForkProcess(t.processes, e);
      Success(t1.(processes := processes))
    case ProcessExit =>
      var processes :- ExitProcess(t.processes, e);
      Success(t1.(processes := processes))
    case FileOpen | LocalIpcConnect => Success(t1)
  }

  /** The capsule of a whole log. */
  function Store(log: seq<Event>): Result<Tables, StoreError> {
    if log == [] then Success(EMPTY)
    else
      var t :- Store(log[..|log| - 1]);
      Insert(t, log[|log| - 1])
  }

  class CapsuleWriter {
    var events: seq<EventRow>
    var commands: map<int, CommandRow>
    var processes: map<int, ProcessRow>
    var files: map<string, FileRow>
    var network: map<string, NetworkRow>

    function Contents(): Tables
      reads this
    {
      Tables(events, commands, processes, files, network)
    }

    constructor ()
      ensures Contents() == EMPTY
    {
      events, commands, processes, files, network := [], map[], map[], map[], map[];
    }

    /** A thrown exception leaves the event's own row behind; the transaction is then rolled back. */
    method Emit(event: Event) returns (error: Option<StoreError>)
      modifies this
      ensures error.None? ==> Insert(old(Contents()), event) == Success(Contents())
      ensures error.Some? ==> Insert(old(Contents()), event) == Failure(error.value)
      ensures error.Some? ==> Contents() == old(Contents()).(events := old(events) + [RowOf(event)])
    {
      events := events + [RowOf(event)];
      match event.kind {
        case CommandStart =>
          if event.command.None? {
            return Some(MissingCommandId);
          }
          var id := AsI64(event.command.value);
          var sequence := Stoll(MetadataValue(event, "sequence", "0"));
          if sequence.None? {
            return Some(BadNumber);
          }
          if id in commands || exists c <- commands :: commands[c].sequence == sequence.value {
            return Some(DuplicateCommand);
          }
          commands := commands[id := CommandRow(
            sequence.value, event.pid, event.resource, MetadataValue(event, "cwd", ""), AsI64(event.ns), None)];
        case CommandEnd =>
          if event.command.None? {
            return Some(MissingCommandId);
          }
          var id := AsI64(event.command.value);
          if id in commands {
            var end := CommandEndRow(AsI64(event.ns), MetadataValue(event, "cwd", ""), event.result);
            commands := commands[id := commands[id].(end := Some(end))];
          }
        case FileRead | FileWrite =>
          var row := FileDelta(event);
          if event.resource in files {
            row := AddFile(files[event.resource], row);
          }
          files := files[event.resource := row];
        case NetworkConnect =>
          var row := NetworkRow(1, if event.errno == 0 then 1 else 0, if event.errno == 0 then 0 else 1, event.errno);
          if event.resource in network {
            var before := network[event.resource];
            row := NetworkRow(before.connects + 1, before.successes + row.successes,
                              before.failures + row.failures, event.errno);
          }
          network := network[event.resource := row];
        case ProcessExec =>
          var ppid := Stoll(MetadataValue(event, "ppid", "0"));
          if ppid.None? {
            return Some(BadNumber);
          }
          if event.pid in processes {
            processes := processes[event.pid := processes[event.pid].(executable := event.resource)];
          } else {
            processes := processes[event.pid := ProcessRow(ppid.value, event.resource, AsI64(event.ns), None)];
          }
        case ProcessFork =>
          var child := Stoll(MetadataValue(event, "child_pid", "0"));
          if child.None? {
            return Some(BadNumber);
          }
          if child.value !in processes {
            processes := processes[child.value := ProcessRow(
              event.pid, MetadataValue(event, "executable", "<unknown>"), AsI64(event.ns), None)];
          }
        case ProcessExit =>
          var code := Stoll(MetadataValue(event, "exit_code", "-1"));
          var signal := Stoll(MetadataValue(event, "term_signal", "0"));
          if code.None? || signal.None? {
            return Some(BadNumber);
          }
          if event.pid in processes {
            var exit := ExitRow(AsI64(event.ns), code.value, signal.value);
            processes := processes[event.pid := processes[event.pid].(exit := Some(exit))];
          }
        case FileOpen | LocalIpcConnect =>
      }
      return None;
    }
  }
}
