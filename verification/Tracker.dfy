/**
 The transitions of ExecutionState as functions on its state: each callback yields the
 next state and the events handed to the sink, or the exception that the source throws.
 */
module Tracker {
  import opened Wrappers
  import opened Text
  import opened Events
  import Paths

  datatype ResourceType = FileResource | SocketResource | PipeResource | UnknownResource

  datatype Resource = Resource(kind: ResourceType, name: string, isDirectory: bool)

  datatype Process = Process(
    pid: int,
    parentPid: int,
    executable: string,
    cwd: string,
    command: Option<U64>,
    fds: map<int, Resource>)

  datatype ActiveCommand = ActiveCommand(id: U64, firstProcessNs: Option<U64>, started: bool)

  datatype State = State(
    processes: map<int, Process>,
    threads: map<int, int>,
    active: Option<ActiveCommand>,
    root: int)

  datatype MarkerError = ArmedBeforeEnd | StartMismatch | EndMismatch

  datatype Outcome = Accepted(state: State, events: seq<Event>) | Refused(error: MarkerError)

  const EMPTY := State(map[], map[], None, 0)

  // ---- Lookups ----

  function ProcessFor(s: State, tid: int): int {
    if tid in s.threads then s.threads[tid] else tid
  }

  predicate Known(s: State, tid: int) {
    ProcessFor(s, tid) in s.processes
  }

  function Find(s: State, tid: int): Process
    requires Known(s, tid)
  {
    s.processes[ProcessFor(s, tid)]
  }

  function SetProcess(s: State, key: int, p: Process): State {
    s.(processes := s.processes[key := p])
  }

  predicate Armed(s: State) {
    s.active.Some? && !s.active.value.started
  }

  predicate RootIsArmed(s: State, p: Process) {
    p.pid == s.root && Armed(s)
  }

  /** emit: an event without a command takes that of its process, unless the root is armed. */
  function Stamp(s: State, e: Event): Event {
    if e.command.Some? || !Known(s, e.tid) || RootIsArmed(s, Find(s, e.tid)) then e
    else e.(command := Find(s, e.tid).command)
  }

  function SyscallErrno(result: int): int {
    if -4095 <= result < 0 then -result else 0
  }

  function UnreadableAddress(address: U64): string {
    "<unreadable@0x" + Hex(address) + ">"
  }

  function ChildKind(event: PtraceEvent): string {
    match event
    case Fork => "fork"
    case Vfork => "vfork"
    case Clone => "clone"
    case OtherEvent => "unknown"
  }

  // ---- Construction ----

  function AddInitialProcess(pid: Tid, cwd: string, rootCommand: Option<string>, ns: U64): Outcome {
    var id := if rootCommand.Some? then Some(1) else None;
    var s := State(
      map[pid := Process(pid, 0, "", cwd, id, map[])],
      map[pid := pid],
      if rootCommand.Some? then Some(ActiveCommand(1, Some(ns), true)) else None,
      pid);
    Accepted(s,
      if rootCommand.Some? then
        [Stamp(s, Event(ns, pid, pid, CommandStart, rootCommand.value, 0, 0,
                        map["cwd" := cwd, "sequence" := "1"], Some(1)))]
      else [])
  }

  // ---- Command markers ----

  predicate MatchesActive(s: State, p: Process, id: U64, started: bool) {
    && s.active.Some? && s.active.value.id == id && s.active.value.started == started
    && p.command == Some(id)
  }

  function OnArm(s: State, tid: Tid, m: CommandMarker): Outcome
    requires Known(s, tid)
  {
    var p := Find(s, tid);
    if s.active.Some? || p.command.Some? then Refused(ArmedBeforeEnd)
    else
      var s1 := SetProcess(s, ProcessFor(s, tid), p.(command := Some(m.id)));
      Accepted(s1.(active := Some(ActiveCommand(m.id, None, false))), [])
  }

  function StartMetadata(m: CommandMarker): map<string, string> {
    map["cwd" := m.cwd, "sequence" := Decimal(m.id)]
  }

  function EndMetadata(m: CommandMarker): map<string, string> {
    map["cwd" := m.cwd]
  }

  function OnStart(s: State, tid: Tid, m: CommandMarker, ns: U64): Outcome
    requires Known(s, tid)
  {
    var p := Find(s, tid);
    if !MatchesActive(s, p, m.id, false) then Refused(StartMismatch)
    else
      var s1 := s.(active := Some(s.active.value.(started := true)));
      Accepted(s1, [Stamp(s1, Event(
        s.active.value.firstProcessNs.GetOr(ns), p.pid, tid, CommandStart, m.text, 0, 0,
        StartMetadata(m), Some(m.id)))])
  }

  function OnEnd(s: State, tid: Tid, m: CommandMarker, ns: U64): Outcome
    requires Known(s, tid)
  {
    var p := Find(s, tid);
    if !MatchesActive(s, p, m.id, true) then Refused(EndMismatch)
    else
      var s1 := SetProcess(s, ProcessFor(s, tid), p.(command := None));
      Accepted(s1.(active := None), [Stamp(s, Event(
        ns, p.pid, tid, CommandEnd, "", m.exitCode, 0, EndMetadata(m), Some(m.id)))])
  }

  function OnMarker(s: State, tid: Tid, m: CommandMarker, ns: U64): Outcome {
    if !Known(s, tid) || Find(s, tid).pid != s.root then Accepted(s, [])
    else
      match m.kind
      case Arm => OnArm(s, tid, m)
      case Start => OnStart(s, tid, m, ns)
      case End => OnEnd(s, tid, m, ns)
  }

  // ---- Processes and threads ----

  /** A process that executes a program before its creation was reported. */
  function Discover(s: State, tid: Tid, cwd: string): State {
    if Known(s, tid) then s
    else
      SetProcess(s, tid, Process(tid, 0, "", cwd, None, map[])).(threads := s.threads[tid := tid])
  }

  function OnExec(s: State, tid: Tid, exeLink: string, cwdLink: string, ns: U64): Outcome {
    var s1 := Discover(s, tid, cwdLink);
    var executable := if exeLink == "" then "<unknown>" else exeLink;
    var p := Find(s1, tid).(executable := executable);
    var s2 := SetProcess(s1, ProcessFor(s1, tid), p);
    Accepted(s2, [Stamp(s2, Event(
      ns, p.pid, tid, ProcessExec, executable, 0, 0, map["ppid" := Decimal(p.parentPid)], None))])
  }

  predicate IsThread(event: PtraceEvent, cloneFlags: U64) {
    event.Clone? && HasFlag(cloneFlags, CLONE_THREAD)
  }

  /** The first child of an armed root fixes the time at which its command began. */
  function NoteFirstProcess(s: State, parentPid: int, ns: U64): State {
    if parentPid == s.root && Armed(s) && s.active.value.firstProcessNs.None? then
      s.(active := Some(s.active.value.(firstProcessNs := Some(ns))))
    else s
  }

  function OnFork(s: State, parentTid: Tid, child: Tid, event: PtraceEvent, ns: U64): Outcome
    requires Known(s, parentTid)
  {
    var parent := Find(s, parentTid);
    var s1 := SetProcess(s, child, parent.(pid := child, parentPid := parent.pid))
              .(threads := s.threads[child := child]);
    var s2 := NoteFirstProcess(s1, parent.pid, ns);
    Accepted(s2, [Stamp(s2, Event(
      ns, parent.pid, parentTid, ProcessFork, Decimal(child), child, 0,
      map["child_pid" := Decimal(child), "kind" := ChildKind(event), "executable" := parent.executable],
      parent.command))])
  }

  function OnCreated(
    s: State, parentTid: Tid, child: Tid, event: PtraceEvent, cloneFlags: U64, ns: U64): Outcome
  {
    if !Known(s, parentTid) then Accepted(s, [])
    else if IsThread(event, cloneFlags) then
      Accepted(s.(threads := s.threads[child := Find(s, parentTid).pid]), [])
    else OnFork(s, parentTid, child, event, ns)
  }

  function ExitResult(exitCode: I32, termSignal: I32): int {
    if termSignal == 0 then exitCode else 128 + termSignal
  }

  /** The leader's exit; it closes the root's command and forgets the active one. */
  function OnLeaderExit(s: State, tid: Tid, exitCode: I32, termSignal: I32, ns: U64): Outcome
    requires tid in s.processes
  {
    var p0 := s.processes[tid];
    var isRoot := p0.pid == s.root;
    var p := if isRoot && Armed(s) then p0.(command := None) else p0;
    var s1 := SetProcess(s, tid, p);
    var result := ExitResult(exitCode, termSignal);
    var exited := Stamp(s1, Event(
      ns, p.pid, tid, ProcessExit, p.executable, result, 0,
      map["exit_code" := Decimal(exitCode), "term_signal" := Decimal(termSignal)], None));
    var closes := isRoot && s.active.Some? && s.active.value.started && p.command.Some?;
    var ended := Event(ns, p.pid, tid, CommandEnd, "", result, 0, map["cwd" := p.cwd], p.command);
    var s2 := if closes then SetProcess(s1, tid, p.(command := None)) else s1;
    var s3 := if isRoot then s2.(active := None) else s2;
    Accepted(s3.(threads := s3.threads - {tid}), if closes then [exited, Stamp(s1, ended)] else [exited])
  }

  function OnExit(s: State, tid: Tid, exitCode: I32, termSignal: I32, ns: U64): Outcome {
    if ProcessFor(s, tid) != tid then Accepted(s.(threads := s.threads - {tid}), [])
    else if tid !in s.processes then Accepted(s, [])
    else OnLeaderExit(s, tid, exitCode, termSignal, ns)
  }

  function ForgetThread(s: State, tid: Tid): State {
    s.(threads := s.threads - {tid})
  }

  // ---- System calls ----

  function ResolvePath(p: Process, dirfd: int, path: string): string {
    if path == "" then path
    else if Paths.IsAbsolute(path) then Paths.Normalize(path)
    else if dirfd == AT_FDCWD then Paths.Normalize(Paths.Append(p.cwd, path))
    else if dirfd in p.fds && p.fds[dirfd].kind.FileResource? && p.fds[dirfd].isDirectory then
      Paths.Normalize(Paths.Append(p.fds[dirfd].name, path))
    else "<dirfd:" + Decimal(dirfd) + ">/" + path
  }

  function PathArgument(p: Process, dirfd: int, memory: Memory, address: U64): string {
    var raw := memory.ReadString(address);
    ResolvePath(p, dirfd, if raw == "" then UnreadableAddress(address) else raw)
  }

  /** The changed process and the event, if any, of one system call, before it is stamped. */
  datatype CallEffect = CallEffect(process: Process, event: Option<Event>)

  function CallEvent(
    p: Process, call: RawSyscall, kind: EventType, resource: string, metadata: map<string, string>): Event
  {
    Event(call.ns, p.pid, call.tid, kind, resource, call.result, SyscallErrno(call.result), metadata, None)
  }

  function Install(p: Process, fd: int, r: Resource): Process {
    p.(fds := p.fds[fd := r])
  }

  function OpenEffect(
    p: Process, call: RawSyscall, path: string, directory: bool, metadata: map<string, string>): CallEffect
  {
    CallEffect(
      if call.result >= 0 then Install(p, ToI32(call.result), Resource(FileResource, path, directory)) else p,
      Some(CallEvent(p, call, FileOpen, path, metadata)))
  }

  function OpenAtFlags(call: RawSyscall, memory: Memory): U64 {
    if call.name.OpenAt2? then
      if call.args[2] in memory.openHowFlags then memory.openHowFlags[call.args[2]] else 0
    else call.args[2]
  }

  function TransferEffect(p: Process, call: RawSyscall): CallEffect {
    var fd := Fd(call, 0);
    if fd in p.fds && p.fds[fd].kind.FileResource? then
      CallEffect(p, Some(CallEvent(p, call, if call.name.Read? then FileRead else FileWrite, p.fds[fd].name,
        map["fd" := Decimal(fd), "requested_bytes" := Decimal(call.args[2])])))
    else CallEffect(p, None)
  }

  function DupFds(fds: map<int, Resource>, from: int, to: int): map<int, Resource> {
    if from in fds then fds[to := fds[from]] else fds - {to}
  }

  function ConnectEffect(p: Process, call: RawSyscall, memory: Memory): CallEffect {
    var fd := Fd(call, 0);
    match memory.ReadEndpoint(call.args[1])
    case None => CallEffect(p, None)
    case Some(endpoint) =>
      CallEffect(
        if fd in p.fds && p.fds[fd].kind.SocketResource? then
          Install(p, fd, p.fds[fd].(name := endpoint.resource))
        else p,
        Some(CallEvent(p, call, if endpoint.isLocal then LocalIpcConnect else NetworkConnect, endpoint.resource,
          map["operation" := "connect", "fd" := Decimal(fd), "family" := endpoint.family])))
  }

  function SyscallEffect(p: Process, call: RawSyscall, memory: Memory): CallEffect {
    match call.name
    case Open =>
      OpenEffect(p, call, PathArgument(p, AT_FDCWD, memory, call.args[0]), HasFlag(call.args[1], O_DIRECTORY),
        map["operation" := "open", "flags" := Decimal(Fd(call, 1))])
    case OpenAt | OpenAt2 =>
      var flags := OpenAtFlags(call, memory);
      OpenEffect(p, call, PathArgument(p, Fd(call, 0), memory, call.args[1]), HasFlag(flags, O_DIRECTORY),
        map["operation" := if call.name.OpenAt? then "openat" else "openat2",
            "flags" := Decimal(flags), "dirfd" := Decimal(Fd(call, 0))])
    case Read | Write => TransferEffect(p, call)
    case Close => CallEffect(if call.result == 0 then p.(fds := p.fds - {Fd(call, 0)}) else p, None)
    case Dup | Dup2 | Dup3 =>
      CallEffect(
        if call.result < 0 then p else p.(fds := DupFds(p.fds, Fd(call, 0), ToI32(call.result))), None)
    case Socket =>
      CallEffect(
        if call.result >= 0 then Install(p, ToI32(call.result), Resource(SocketResource, "<socket>", false))
        else p, None)
    case Connect => ConnectEffect(p, call, memory)
    case Chdir =>
      var raw := memory.ReadString(call.args[0]);
      CallEffect(
        if call.result == 0 && raw != "" then p.(cwd := ResolvePath(p, AT_FDCWD, raw)) else p, None)
    case Fchdir =>
      var fd := Fd(call, 0);
      CallEffect(
        if call.result == 0 && fd in p.fds && p.fds[fd].kind.FileResource? then p.(cwd := p.fds[fd].name)
        else p, None)
    case Fcntl | OtherCall => CallEffect(p, None)
  }

  function OnSyscall(s: State, call: RawSyscall, memory: Memory): Outcome {
    if !Known(s, call.tid) then Accepted(s, [])
    else
      var effect := SyscallEffect(Find(s, call.tid), call, memory);
      Accepted(SetProcess(s, ProcessFor(s, call.tid), effect.process), if effect.event.Some? then [Stamp(s, effect.event.value)] else [])
  }

  // ---- The structural invariant ----

  /**
   Processes stand under their own ids; every thread leads to a process in one hop; a
   command is active exactly when the root carries its id.
   */
  predicate Valid(s: State) {
    && s.root in s.processes
    && (forall p <- s.processes :: s.processes[p].pid == p && 0 < p)
    && (forall t <- s.threads :: s.threads[t] in s.processes)
    && (forall p <- s.processes :: ProcessFor(s, p) == p)
    && s.processes[s.root].parentPid == 0
    && s.processes[s.root].command == (if s.active.Some? then Some(s.active.value.id) else None)
  }

  /** The kernel does not hand out an id that the tracker already knows. */
  predicate FreshTid(s: State, tid: int) {
    tid !in s.processes && tid !in s.threads
  }

  lemma MarkerKeepsValid(s: State, tid: Tid, m: CommandMarker, ns: U64)
    requires Valid(s) && OnMarker(s, tid, m, ns).Accepted?
    ensures Valid(OnMarker(s, tid, m, ns).state)
  {
  }

  lemma DiscoverKeepsValid(s: State, tid: Tid, cwd: string)
    requires Valid(s)
    ensures Valid(Discover(s, tid, cwd)) && Known(Discover(s, tid, cwd), tid)
  {
    assert tid !in s.processes ==> forall t <- s.threads :: s.threads[t] != tid;
  }

  /** Another program or directory does not touch the structure. */
  lemma ProcessKeepsValid(s: State, key: int, p: Process)
    requires Valid(s) && key in s.processes
    requires p.pid == s.processes[key].pid && p.parentPid == s.processes[key].parentPid
    requires p.command == s.processes[key].command
    ensures Valid(SetProcess(s, key, p))
  {
  }

  lemma ExecKeepsValid(s: State, tid: Tid, exeLink: string, cwdLink: string, ns: U64)
    requires Valid(s)
    ensures Valid(OnExec(s, tid, exeLink, cwdLink, ns).state)
  {
    var s1, executable := Discover(s, tid, cwdLink), if exeLink == "" then "<unknown>" else exeLink;
    DiscoverKeepsValid(s, tid, cwdLink);
    ProcessKeepsValid(s1, ProcessFor(s1, tid), Find(s1, tid).(executable := executable));
  }

  lemma ThreadKeepsValid(s: State, parent: Tid, child: Tid)
    requires Valid(s) && FreshTid(s, child) && Known(s, parent)
    ensures Valid(s.(threads := s.threads[child := Find(s, parent).pid]))
  {
    forall p <- s.processes ensures p != child && ProcessFor(s, p) == p {
    }
  }

  lemma ForkKeepsValid(s: State, parent: Tid, child: Tid, event: PtraceEvent, ns: U64)
    requires Valid(s) && FreshTid(s, child) && Known(s, parent)
    ensures Valid(OnFork(s, parent, child, event, ns).state)
  {
    var s1 := OnFork(s, parent, child, event, ns).state;
    forall p <- s1.processes ensures ProcessFor(s1, p) == p {
      assert p != child ==> ProcessFor(s, p) == p;
    }
  }

  lemma CreatedKeepsValid(s: State, parent: Tid, child: Tid, event: PtraceEvent, flags: U64, ns: U64)
    requires Valid(s) && FreshTid(s, child)
    ensures Valid(OnCreated(s, parent, child, event, flags, ns).state)
  {
    if Known(s, parent) {
      if IsThread(event, flags) {
        ThreadKeepsValid(s, parent, child);
      } else {
        ForkKeepsValid(s, parent, child, event, ns);
      }
    }
  }

  lemma ExitKeepsValid(s: State, tid: Tid, exitCode: I32, termSignal: I32, ns: U64)
    requires Valid(s)
    ensures Valid(OnExit(s, tid, exitCode, termSignal, ns).state)
  {
    var s1 := OnExit(s, tid, exitCode, termSignal, ns).state;
    forall p <- s1.processes ensures ProcessFor(s1, p) == p {
      assert ProcessFor(s, p) == p;
    }
  }

  lemma SyscallKeepsValid(s: State, call: RawSyscall, memory: Memory)
    requires Valid(s)
    ensures Valid(OnSyscall(s, call, memory).state)
  {
    if Known(s, call.tid) {
      SyscallFrame(Find(s, call.tid), call, memory);
    }
  }

  /** A system call changes nothing of its process but the descriptors and the directory. */
  lemma SyscallFrame(p: Process, call: RawSyscall, memory: Memory)
    ensures var q := SyscallEffect(p, call, memory).process;
            q == p.(fds := q.fds, cwd := q.cwd)
    ensures SyscallEffect(p, call, memory).event.Some? ==>
              var e := SyscallEffect(p, call, memory).event.value;
              && e.ns == call.ns && e.pid == p.pid && e.tid == call.tid && e.command == None
              && e.result == call.result && e.errno == SyscallErrno(call.result)
              && e.kind in {FileOpen, FileRead, FileWrite, NetworkConnect, LocalIpcConnect}
  {
  }
}
