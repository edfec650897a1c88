/** The object that turns ptrace callbacks into events, updated in place as in the source. */
module ExecutionTracking {
  import opened Wrappers
  import opened Text
  import opened Events
  import opened Tracker

  class ExecutionState {
    var processes: map<int, Process>
    var threadToProcess: map<int, int>
    var activeCommand: Option<ActiveCommand>
    var rootPid: int
    /** The sink: every event emitted so far, in order. */
    var sink: seq<Event>

    function Abstract(): State
      reads this
    {
      State(processes, threadToProcess, activeCommand, rootPid)
    }

    predicate Valid()
      reads this
    {
      Tracker.Valid(Abstract())
    }

    ghost predicate Did(before: State, log: seq<Event>, outcome: Outcome)
      reads this
    {
      outcome.Accepted? && Abstract() == outcome.state && sink == log + outcome.events
    }

    constructor ()
      ensures Abstract() == EMPTY && sink == []
    {
      processes, threadToProcess, activeCommand, rootPid, sink := map[], map[], None, 0, [];
    }

    method AddInitialProcess(pid: Tid, cwd: string, rootCommand: Option<string>, ns: U64)
      requires Abstract() == EMPTY
      modifies this
      ensures Did(old(Abstract()), old(sink), Tracker.AddInitialProcess(pid, cwd, rootCommand, ns))
      ensures Valid()
    {
      var process := Process(pid, 0, "", cwd, None, map[]);
      if rootCommand.Some? {
        process := process.(command := Some(1));
        activeCommand := Some(ActiveCommand(1, Some(ns), true));
      }
      processes := processes[pid := process];
      threadToProcess := threadToProcess[pid := pid];
      rootPid := pid;

      if rootCommand.Some? {
        var metadata := map["cwd" := processes[pid].cwd];
        metadata := metadata["sequence" := "1"];
        assert metadata == map["cwd" := cwd, "sequence" := "1"];
        Emit(Event(ns, pid, pid, CommandStart, rootCommand.value, 0, 0, metadata, Some(1)));
      }
    }

    method Emit(event: Event)
      modifies this`sink
      ensures sink == old(sink) + [Stamp(Abstract(), event)]
    {
      var stamped := event;
      if stamped.command.None? && Known(Abstract(), stamped.tid) {
        var process := Find(Abstract(), stamped.tid);
        var rootIsArmed := process.pid == rootPid && activeCommand.Some? && !activeCommand.value.started;
        if !rootIsArmed {
          stamped := stamped.(command := process.command);
        }
      }
      sink := sink + [stamped];
    }

    /** A marker that does not fit throws before anything has changed. */
    method OnCommandMarker(tid: Tid, marker: CommandMarker, ns: U64) returns (error: Option<MarkerError>)
      modifies this
      ensures error.None? ==> Did(old(Abstract()), old(sink), OnMarker(old(Abstract()), tid, marker, ns))
      ensures error.Some? ==> OnMarker(old(Abstract()), tid, marker, ns) == Refused(error.value)
      ensures error.Some? ==> Abstract() == old(Abstract()) && sink == old(sink)
      ensures old(Valid()) ==> Valid()
    {
      if !Known(Abstract(), tid) || Find(Abstract(), tid).pid != rootPid {
        return None;
      }
      var key := ProcessFor(Abstract(), tid);
      var process := processes[key];

      if marker.kind.Arm? {
        if activeCommand.Some? || process.command.Some? {
          return Some(ArmedBeforeEnd);
        }
        processes := processes[key := process.(command := Some(marker.id))];
        activeCommand := Some(ActiveCommand(marker.id, None, false));
        return None;
      }

      if marker.kind.Start? {
        if !MatchesActive(Abstract(), process, marker.id, false) {
          return Some(StartMismatch);
        }
        activeCommand := Some(activeCommand.value.(started := true));
        Emit(Event(
          activeCommand.value.firstProcessNs.GetOr(ns), process.pid, tid, CommandStart, marker.text, 0, 0,
          map["cwd" := marker.cwd, "sequence" := Decimal(marker.id)], Some(marker.id)));
        return None;
      }

      if !MatchesActive(Abstract(), process, marker.id, true) {
        return Some(EndMismatch);
      }
      Emit(Event(
        ns, process.pid, tid, CommandEnd, "", marker.exitCode, 0, map["cwd" := marker.cwd], Some(marker.id)));
      processes := processes[key := process.(command := None)];
      activeCommand := None;
      return None;
    }

    method OnProcessExec(tid: Tid, exeLink: string, cwdLink: string, ns: U64)
      modifies this
      ensures Did(old(Abstract()), old(sink), OnExec(old(Abstract()), tid, exeLink, cwdLink, ns))
      ensures old(Valid()) ==> Valid()
    {
      if Valid() {
        ExecKeepsValid(Abstract(), tid, exeLink, cwdLink, ns);
      }
      if !Known(Abstract(), tid) {
        processes := processes[tid := Process(tid, 0, "", cwdLink, None, map[])];
        threadToProcess := threadToProcess[tid := tid];
      }
      var key := ProcessFor(Abstract(), tid);
      var executable := if exeLink == "" then "<unknown>" else exeLink;
      processes := processes[key := processes[key].(executable := executable)];
      Emit(Event(
        ns, processes[key].pid, tid, ProcessExec, executable, 0, 0,
        map["ppid" := Decimal(processes[key].parentPid)], None));
    }

    method OnProcessCreated(parentTid: Tid, child: Tid, event: PtraceEvent, cloneFlags: U64, ns: U64)
      modifies this
      ensures Did(old(Abstract()), old(sink),
                  OnCreated(old(Abstract()), parentTid, child, event, cloneFlags, ns))
      ensures old(Valid()) && FreshTid(old(Abstract()), child) ==> Valid()
    {
      if Valid() && FreshTid(Abstract(), child) {
        CreatedKeepsValid(Abstract(), parentTid, child, event, cloneFlags, ns);
      }
      if !Known(Abstract(), parentTid) {
        return;
      }
      var parent := Find(Abstract(), parentTid);
      if IsThread(event, cloneFlags) {
        threadToProcess := threadToProcess[child := parent.pid];
        return;
      }

      processes := processes[child := parent.(pid := child, parentPid := parent.pid)];
      threadToProcess := threadToProcess[child := child];
      if parent.pid == rootPid && Armed(Abstract()) && activeCommand.value.firstProcessNs.None? {
        activeCommand := Some(activeCommand.value.(firstProcessNs := Some(ns)));
      }
      Emit(Event(
        ns, parent.pid, parentTid, ProcessFork, Decimal(child), child, 0,
        map["child_pid" := Decimal(child), "kind" := ChildKind(event), "executable" := parent.executable],
        parent.command));
    }

    method OnProcessExit(tid: Tid, exitCode: I32, termSignal: I32, ns: U64)
      modifies this
      ensures Did(old(Abstract()), old(sink), OnExit(old(Abstract()), tid, exitCode, termSignal, ns))
      ensures old(Valid()) ==> Valid()
    {
      if Valid() {
        ExitKeepsValid(Abstract(), tid, exitCode, termSignal, ns);
      }
      if ProcessFor(Abstract(), tid) != tid {
        threadToProcess := threadToProcess - {tid};
        return;
      }
      if tid !in processes {
        return;
      }
      var process := processes[tid];
      if process.pid == rootPid && Armed(Abstract()) {
        process := process.(command := None);
      }
      processes := processes[tid := process];

      var result := ExitResult(exitCode, termSignal);
      Emit(Event(
        ns, process.pid, tid, ProcessExit, process.executable, result, 0,
        map["exit_code" := Decimal(exitCode), "term_signal" := Decimal(termSignal)], None));
      if process.pid == rootPid && activeCommand.Some? && activeCommand.value.started && process.command.Some? {
        Emit(Event(
          ns, process.pid, tid, CommandEnd, "", result, 0, map["cwd" := process.cwd], process.command));
        processes := processes[tid := process.(command := None)];
      }
      if process.pid == rootPid {
        activeCommand := None;
      }
      threadToProcess := threadToProcess - {tid};
    }

    method OnSyscallExit(call: RawSyscall, memory: Memory)
      modifies this
      ensures Did(old(Abstract()), old(sink), OnSyscall(old(Abstract()), call, memory))
      ensures old(Valid()) ==> Valid()
    {
      if Valid() {
        SyscallKeepsValid(Abstract(), call, memory);
      }
      if !Known(Abstract(), call.tid) {
        return;
      }
      var key := ProcessFor(Abstract(), call.tid);
      var process := FollowCall(processes[key], call, memory);
      processes := processes[key := process];
    }

    /** The branches of on_syscall_exit: what the call reports, and its process afterwards. */
    method FollowCall(before: Process, call: RawSyscall, memory: Memory) returns (process: Process)
      modifies this`sink
      ensures process == SyscallEffect(before, call, memory).process
      ensures var event := SyscallEffect(before, call, memory).event;
              sink == old(sink) + if event.Some? then [Stamp(Abstract(), event.value)] else []
    {
      process := before;
      match call.name {
        case Open =>
          var path := PathArgument(process, AT_FDCWD, memory, call.args[0]);
          Emit(CallEvent(process, call, FileOpen, path,
            map["operation" := "open", "flags" := Decimal(Fd(call, 1))]));
          if call.result >= 0 {
            var directory := HasFlag(call.args[1], O_DIRECTORY);
            process := Install(process, ToI32(call.result), Resource(FileResource, path, directory));
          }
        case OpenAt | OpenAt2 =>
          var dirfd := Fd(call, 0);
          var path := PathArgument(process, dirfd, memory, call.args[1]);
          var flags := OpenAtFlags(call, memory);
          Emit(CallEvent(process, call, FileOpen, path,
            map["operation" := if call.name.OpenAt? then "openat" else "openat2",
                "flags" := Decimal(flags), "dirfd" := Decimal(dirfd)]));
          if call.result >= 0 {
            var directory := HasFlag(flags, O_DIRECTORY);
            process := Install(process, ToI32(call.result), Resource(FileResource, path, directory));
          }
        case Read | Write =>
          var fd := Fd(call, 0);
          if fd in process.fds && process.fds[fd].kind.FileResource? {
            Emit(CallEvent(process, call, if call.name.Read? then FileRead else FileWrite,
              process.fds[fd].name,
              map["fd" := Decimal(fd), "requested_bytes" := Decimal(call.args[2])]));
          }
        case Close =>
          if call.result == 0 {
            process := process.(fds := process.fds - {Fd(call, 0)});
          }
        case Dup | Dup2 | Dup3 =>
          if call.result >= 0 {
            var from, to := Fd(call, 0), ToI32(call.result);
            if from in process.fds {
              process := process.(fds := process.fds[to := process.fds[from]]);
            } else {
              process := process.(fds := process.fds - {to});
            }
          }
        case Socket =>
          if call.result >= 0 {
            process := Install(process, ToI32(call.result), Resource(SocketResource, "<socket>", false));
          }
        case Connect =>
          var endpoint := memory.ReadEndpoint(call.args[1]);
          if endpoint.Some? {
            var fd, e := Fd(call, 0), endpoint.value;
            Emit(CallEvent(process, call, if e.isLocal then LocalIpcConnect else NetworkConnect, e.resource,
              map["operation" := "connect", "fd" := Decimal(fd), "family" := e.family]));
            if fd in process.fds && process.fds[fd].kind.SocketResource? {
              process := Install(process, fd, process.fds[fd].(name := e.resource));
            }
          }
        case Chdir =>
          var raw := memory.ReadString(call.args[0]);
          if call.result == 0 && raw != "" {
            process := process.(cwd := ResolvePath(process, AT_FDCWD, raw));
          }
        case Fchdir =>
          var fd := Fd(call, 0);
          if call.result == 0 && fd in process.fds && process.fds[fd].kind.FileResource? {
            process := process.(cwd := process.fds[fd].name);
          }
        case Fcntl | OtherCall =>
      }
    }

    method ForgetThread(tid: Tid)
      modifies this
      ensures Abstract() == Tracker.ForgetThread(old(Abstract()), tid) && sink == old(sink)
      ensures old(Valid()) ==> Valid()
    {
      threadToProcess := threadToProcess - {tid};
    }
  }
}
