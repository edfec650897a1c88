/**
 What each callback puts into the log, said without the branches that produce it: the kinds of
 events, their resources, results, error numbers and metadata.
 */
module Reporting {
  import opened Wrappers
  import opened Text
  import opened Events
  import opened Tracker
  import opened Runs
  import Paths
  import MarkerLanguage

  // ---- Numbers and flags ----

  /** Results from -4095 to -1 are error numbers; nothing else is an error. */
  predicate ErrnoOf(result: int, errno: int) {
    && (-4095 <= result <= -1 ==> errno == -result)
    && (result < -4095 || result >= 0 ==> errno == 0)
  }

  predicate Bit16Between(flags: nat, high: nat, low: nat) {
    low < 0x1_0000 && flags == high * 0x2_0000 + 0x1_0000 + low
  }

  /** Bit 16 is set: CLONE_THREAD among the flags of clone, O_DIRECTORY among those of open. */
  ghost predicate Bit16(flags: nat) {
    exists high: nat, low: nat :: Bit16Between(flags, high, low)
  }

  lemma Halves(flags: nat, high: nat, low: nat)
    requires Bit16Between(flags, high, low)
    ensures flags / 0x1_0000 == 2 * high + 1
  {
    assert flags == (2 * high + 1) * 0x1_0000 + low;
  }

  lemma FlagIsBit16(flags: nat)
    ensures CLONE_THREAD == O_DIRECTORY == 0x1_0000
    ensures HasFlag(flags, 0x1_0000) <==> Bit16(flags)
  {
    if HasFlag(flags, 0x1_0000) {
      assert Bit16Between(flags, flags / 0x2_0000, flags % 0x1_0000);
    }
    if Bit16(flags) {
      var high: nat, low: nat :| Bit16Between(flags, high, low);
      Halves(flags, high, low);
    }
  }

  function HexDigitValue(c: char): int {
    if '0' <= c <= '9' then c as int - '0' as int
    else if 'a' <= c <= 'f' then c as int - 'a' as int + 10
    else -1
  }

  function HexNumber(digits: string): int {
    if digits == "" then 0
    else HexNumber(digits[..|digits| - 1]) * 16 + HexDigitValue(digits[|digits| - 1])
  }

  /** The digits of an address denote it; they are lower-case and do not begin with zero. */
  lemma {:induction false} HexDenotes(n: nat)
    ensures Hex(n) != "" && HexNumber(Hex(n)) == n
    ensures forall c <- Hex(n) :: HexDigitValue(c) >= 0
    ensures n > 0 ==> Hex(n)[0] != '0'
  {
    if n < 16 {
      assert [HexDigit(n)][..0] == "";
    } else {
      HexDenotes(n / 16);
      var s := Hex(n);
      assert s[..|s| - 1] == Hex(n / 16) && s[0] == Hex(n / 16)[0];
    }
  }

  // ---- System calls ----

  /** The event is this call's, made by the thread for its process. */
  predicate OfCall(s: State, call: RawSyscall, e: Event)
    requires Known(s, call.tid)
  {
    && e.ns == call.ns && e.tid == call.tid && e.pid == ProcessFor(s, call.tid)
    && e.result == call.result && ErrnoOf(call.result, e.errno)
  }

  /** Where a path argument leads; an address that cannot be read stands for itself. */
  predicate LeadsTo(p: Process, dirfd: int, path: string, address: U64, resource: string) {
    var text := if path == "" then "<unreadable@0x" + Hex(address) + ">" else path;
    if text[0] == '/' then resource == Paths.Normalize(text)
    else if dirfd == -100 then resource == Paths.Normalize(Paths.Append(p.cwd, text))
    else if dirfd in p.fds && p.fds[dirfd].kind.FileResource? && p.fds[dirfd].isDirectory then
      resource == Paths.Normalize(Paths.Append(p.fds[dirfd].name, text))
    else resource == "<dirfd:" + Decimal(dirfd) + ">/" + text
  }

  /** Every open is one file_open event, whether it succeeded or not. */
  lemma OpenIsReported(s: State, call: RawSyscall, memory: Memory)
    requires Valid(s) && Known(s, call.tid) && call.name.Open?
    ensures var events := OnSyscall(s, call, memory).events;
            && |events| == 1 && events[0].kind == FileOpen && OfCall(s, call, events[0])
            && LeadsTo(Find(s, call.tid), -100, memory.ReadString(call.args[0]), call.args[0], events[0].resource)
            && events[0].metadata == map["operation" := "open", "flags" := Decimal(ToI32(call.args[1]))]
  {
  }

  lemma OpenAtIsReported(s: State, call: RawSyscall, memory: Memory)
    requires Valid(s) && Known(s, call.tid) && (call.name.OpenAt? || call.name.OpenAt2?)
    ensures var events := OnSyscall(s, call, memory).events;
            && |events| == 1 && events[0].kind == FileOpen && OfCall(s, call, events[0])
            && LeadsTo(Find(s, call.tid), ToI32(call.args[0]), memory.ReadString(call.args[1]), call.args[1],
                       events[0].resource)
  {
  }

  /** The flags that are printed: those of the structure for openat2, zero if it cannot be read. */
  lemma OpenAtPrints(s: State, call: RawSyscall, memory: Memory)
    requires Valid(s) && Known(s, call.tid) && (call.name.OpenAt? || call.name.OpenAt2?)
    ensures var e := OnSyscall(s, call, memory).events;
            var flags := if call.name.OpenAt? then call.args[2]
                         else if call.args[2] in memory.openHowFlags then memory.openHowFlags[call.args[2]]
                         else 0;
            && |e| == 1
            && e[0].metadata == map["operation" := if call.name.OpenAt? then "openat" else "openat2",
                                    "flags" := Decimal(flags), "dirfd" := Decimal(ToI32(call.args[0]))]
  {
  }

  /** A read of a tracked file is one file_read event, a write one file_write event; others are none. */
  lemma TransferIsReported(s: State, call: RawSyscall, memory: Memory)
    requires Valid(s) && Known(s, call.tid) && (call.name.Read? || call.name.Write?)
    ensures var fds, fd := Find(s, call.tid).fds, ToI32(call.args[0]);
            var events := OnSyscall(s, call, memory).events;
            if fd in fds && fds[fd].kind.FileResource? then
              && |events| == 1 && OfCall(s, call, events[0]) && events[0].resource == fds[fd].name
              && (call.name.Read? ==> events[0].kind == FileRead)
              && (call.name.Write? ==> events[0].kind == FileWrite)
              && events[0].metadata == map["fd" := Decimal(fd), "requested_bytes" := Decimal(call.args[2])]
            else events == []
  {
  }

  /** A connect to a decoded address is one event of the address's own type. */
  lemma ConnectIsReported(s: State, call: RawSyscall, memory: Memory)
    requires Valid(s) && Known(s, call.tid) && call.name.Connect?
    ensures var events := OnSyscall(s, call, memory).events;
            match memory.ReadEndpoint(call.args[1])
            case None => events == []
            case Some(endpoint) =>
              && |events| == 1 && OfCall(s, call, events[0]) && events[0].resource == endpoint.resource
              && (endpoint.isLocal ==> events[0].kind == LocalIpcConnect)
              && (!endpoint.isLocal ==> events[0].kind == NetworkConnect)
              && events[0].metadata == map["operation" := "connect", "fd" := Decimal(ToI32(call.args[0])),
                                           "family" := endpoint.family]
  {
  }

  /** A successful open puts the reported path under its result; the directory flag is bit 16. */
  lemma OpenIsTracked(s: State, call: RawSyscall, memory: Memory)
    requires Valid(s) && Known(s, call.tid) && (call.name.Open? || call.name.OpenAt? || call.name.OpenAt2?)
    ensures var before, after := Find(s, call.tid), OnSyscall(s, call, memory).state.processes[ProcessFor(s, call.tid)];
            var flags := if call.name.Open? then call.args[1]
                         else if call.name.OpenAt? then call.args[2]
                         else if call.args[2] in memory.openHowFlags then memory.openHowFlags[call.args[2]]
                         else 0;
            var fd := ToI32(call.result);
            if call.result < 0 then after == before
            else
              && fd in after.fds && after.fds == before.fds[fd := after.fds[fd]] && after.cwd == before.cwd
              && after.fds[fd].kind == FileResource
              && after.fds[fd].name == OnSyscall(s, call, memory).events[0].resource
              && (after.fds[fd].isDirectory <==> Bit16(flags))
  {
    FlagIsBit16(call.args[1]);
    FlagIsBit16(OpenAtFlags(call, memory));
  }

  /** A new socket has no endpoint yet; a connect names the socket, succeeded or not, and changes no file. */
  lemma SocketIsTracked(s: State, call: RawSyscall, memory: Memory)
    requires Valid(s) && Known(s, call.tid) && (call.name.Socket? || call.name.Connect?)
    ensures var before, after := Find(s, call.tid), OnSyscall(s, call, memory).state.processes[ProcessFor(s, call.tid)];
            var fd, endpoint := ToI32(call.args[0]), memory.ReadEndpoint(call.args[1]);
            if call.name.Socket? && call.result >= 0 then
              after == before.(fds := before.fds[ToI32(call.result) := Resource(SocketResource, "<socket>", false)])
            else if call.name.Connect? && endpoint.Some? && fd in before.fds && before.fds[fd].kind.SocketResource? then
              && after == before.(fds := before.fds[fd := after.fds[fd]])
              && after.fds[fd].kind.SocketResource? && after.fds[fd].name == endpoint.value.resource
            else after == before
  {
  }

  /** No other call is reported, and none of a thread that is not known. */
  lemma OthersAreSilent(s: State, call: RawSyscall, memory: Memory)
    requires Valid(s)
    requires !Known(s, call.tid)
             || call.name in {Close, Dup, Dup2, Dup3, Fcntl, Socket, Chdir, Fchdir, OtherCall}
    ensures OnSyscall(s, call, memory).events == []
    ensures !Known(s, call.tid) ==> OnSyscall(s, call, memory).state == s
  {
  }

  // ---- Processes ----

  /** A clone with CLONE_THREAD adds a thread to its creator's process and is not reported. */
  lemma ThreadIsSilent(s: State, c: Callback)
    requires Valid(s) && c.Created? && Known(s, c.tid) && c.event.Clone? && Bit16(c.cloneFlags)
    ensures Step(s, c) == Accepted(s.(threads := s.threads[c.child := ProcessFor(s, c.tid)]), [])
  {
    FlagIsBit16(c.cloneFlags);
  }

  /** Every other creation is one process_fork event of the parent. */
  lemma ForkIsReported(s: State, c: Callback)
    requires Valid(s) && FreshIn(s, c) && c.Created? && Known(s, c.tid)
    requires !c.event.Clone? || !Bit16(c.cloneFlags)
    ensures c.child in Step(s, c).state.processes && Step(s, c).state.threads == s.threads[c.child := c.child]
    ensures var events := Step(s, c).events;
            && |events| == 1 && events[0].kind == ProcessFork
            && events[0].ns == c.ns && events[0].tid == c.tid && events[0].pid == ProcessFor(s, c.tid)
            && events[0].resource == Decimal(c.child) && events[0].result == c.child && events[0].errno == 0
            && events[0].metadata == map["child_pid" := Decimal(c.child), "kind" := KindOfFork(c.event),
                                         "executable" := Find(s, c.tid).executable]
  {
    FlagIsBit16(c.cloneFlags);
  }

  function KindOfFork(event: PtraceEvent): string {
    match event
    case Fork => "fork"
    case Vfork => "vfork"
    case Clone => "clone"
    case OtherEvent => "unknown"
  }

  /**
   After an exec the process's program is the exe link, or unknown if that cannot be read; a
   process that was not known has the directory of its cwd link.
   */
  lemma ExecIsReported(s: State, c: Callback)
    requires Valid(s) && c.Execed?
    ensures var p, s1 := ProcessFor(s, c.tid), Step(s, c).state;
            && p in s1.processes
            && s1.processes[p].executable == (if c.exeLink == "" then "<unknown>" else c.exeLink)
            && (!Known(s, c.tid) ==> s1.processes[p].cwd == c.cwdLink && s1.threads == s.threads[c.tid := c.tid])
            && (Known(s, c.tid) ==> s1.processes[p].cwd == s.processes[p].cwd && s1.threads == s.threads)
    ensures var p, events := ProcessFor(s, c.tid), Step(s, c).events;
            && |events| == 1 && events[0].kind == ProcessExec
            && events[0].ns == c.ns && events[0].tid == c.tid && events[0].pid == p
            && events[0].resource == (if c.exeLink == "" then "<unknown>" else c.exeLink)
            && events[0].result == 0 && events[0].errno == 0
            && events[0].metadata == map["ppid" := Decimal(Step(s, c).state.processes[p].parentPid)]
  {
  }

  /** The status that a shell would report: the exit code, or 128 and the signal. */
  predicate StatusOf(exitCode: int, termSignal: int, result: int) {
    && (termSignal == 0 ==> result == exitCode)
    && (termSignal != 0 ==> result == 128 + termSignal)
  }

  /** The end of a thread other than the leader, or of an unknown task, is not reported. */
  lemma ThreadExitIsSilent(s: State, c: Callback)
    requires Valid(s) && c.Exited? && (ProcessFor(s, c.tid) != c.tid || c.tid !in s.processes)
    ensures Step(s, c).events == [] && Step(s, c).state.processes == s.processes && Step(s, c).state.active == s.active
  {
  }

  /**
   The end of a process is one process_exit event. If the shell ends while a command is
   running, a command_end event of that command follows, with the same result and the
   directory that the shell has at that time.
   */
  lemma ExitIsReported(s: State, c: Callback)
    requires Valid(s) && c.Exited? && ProcessFor(s, c.tid) == c.tid && c.tid in s.processes
    ensures var p, events := s.processes[c.tid], Step(s, c).events;
            && events != [] && events[0].kind == ProcessExit
            && events[0].ns == c.ns && events[0].tid == c.tid && events[0].pid == c.tid
            && events[0].resource == p.executable
            && StatusOf(c.exitCode, c.termSignal, events[0].result) && events[0].errno == 0
            && events[0].metadata == map["exit_code" := Decimal(c.exitCode), "term_signal" := Decimal(c.termSignal)]
  {
  }

  lemma ExitEndsCommand(s: State, c: Callback)
    requires Valid(s) && c.Exited? && ProcessFor(s, c.tid) == c.tid && c.tid in s.processes
    ensures var p, events := s.processes[c.tid], Step(s, c).events;
            if c.tid == s.root && MarkerLanguage.Running(s).Some? then
              && |events| == 2 && events[1].kind == CommandEnd
              && events[1].ns == c.ns && events[1].tid == c.tid && events[1].pid == c.tid
              && events[1].command == MarkerLanguage.Running(s) && events[1].resource == ""
              && StatusOf(c.exitCode, c.termSignal, events[1].result) && events[1].errno == 0
              && events[1].metadata == map["cwd" := p.cwd]
            else |events| == 1
  {
  }

  // ---- Command mode begins ----

  /** In command mode the log begins with the start of command 1, in a session it begins empty. */
  lemma {:induction false} FirstEvent(setup: Setup)
    ensures var log := Trace(setup, []).events;
            if setup.rootCommand.None? then log == []
            else
              && |log| == 1 && log[0].kind == CommandStart && log[0].command == Some(1)
              && log[0].ns == setup.ns && log[0].pid == log[0].tid == setup.pid
              && log[0].resource == setup.rootCommand.value && log[0].result == 0 && log[0].errno == 0
              && log[0].metadata == map["cwd" := setup.cwd, "sequence" := "1"]
  {
  }

  /** The root is the only process; it has no parent, program or descriptors yet. */
  lemma {:induction false} FirstProcess(setup: Setup)
    ensures var s := Trace(setup, []).state;
            && s.root == setup.pid && s.processes.Keys == {setup.pid} && s.threads == map[setup.pid := setup.pid]
            && var p := s.processes[setup.pid];
               p.parentPid == 0 && p.executable == "" && p.cwd == setup.cwd && p.fds == map[]
  {
  }

  lemma {:induction false} FirstStays(setup: Setup, cs: seq<Callback>)
    requires Trace(setup, cs).Accepted? && setup.rootCommand.Some?
    ensures Trace(setup, cs).events != [] && Trace(setup, cs).events[0] == Trace(setup, []).events[0]
  {
    if cs == [] {
      FirstEvent(setup);
    } else {
      FirstStays(setup, Front(cs));
    }
  }
}
