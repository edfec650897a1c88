/** Whole recordings: a setup followed by any sequence of callbacks. */
module Runs {
  import opened Wrappers
  import opened Text
  import opened Events
  import opened Tracker

  datatype Setup = Setup(pid: Tid, cwd: string, rootCommand: Option<string>, ns: U64)

  datatype Callback =
    | Marked(tid: Tid, marker: CommandMarker, ns: U64)
    | Execed(tid: Tid, exeLink: string, cwdLink: string, ns: U64)
    | Created(tid: Tid, child: Tid, event: PtraceEvent, cloneFlags: U64, ns: U64)
    | Exited(tid: Tid, exitCode: I32, termSignal: I32, ns: U64)
    | Called(call: RawSyscall, memory: Memory)

  /** The thread that the callback is about. */
  function Actor(c: Callback): Tid {
    if c.Called? then c.call.tid else c.tid
  }

  function Time(c: Callback): U64 {
    if c.Called? then c.call.ns else c.ns
  }

  function Step(s: State, c: Callback): Outcome {
    match c
    case Marked(tid, m, ns) => OnMarker(s, tid, m, ns)
    case Execed(tid, exe, cwd, ns) => OnExec(s, tid, exe, cwd, ns)
    case Created(tid, child, event, flags, ns) => OnCreated(s, tid, child, event, flags, ns)
    case Exited(tid, code, signal, ns) => OnExit(s, tid, code, signal, ns)
    case Called(call, memory) => OnSyscall(s, call, memory)
  }

  function Last<T>(cs: seq<T>): T
    requires cs != []
  {
    cs[|cs| - 1]
  }

  function Front<T>(cs: seq<T>): seq<T>
    requires cs != []
  {
    cs[..|cs| - 1]
  }

  /** The state and the whole log after a run, or the first exception. */
  function Trace(setup: Setup, cs: seq<Callback>): Outcome {
    if cs == [] then AddInitialProcess(setup.pid, setup.cwd, setup.rootCommand, setup.ns)
    else
      match Trace(setup, Front(cs))
      case Refused(error) => Refused(error)
      case Accepted(s, log) =>
        match Step(s, Last(cs))
        case Refused(error) => Refused(error)
        case Accepted(s1, events) => Accepted(s1, log + events)
  }

  // ---- Assumptions about the kernel, each stated on runs ----

  predicate FreshIn(s: State, c: Callback) {
    c.Created? ==> FreshTid(s, c.child)
  }

  predicate FreshPids(setup: Setup, cs: seq<Callback>) {
    cs != [] ==>
      && FreshPids(setup, Front(cs))
      && (Trace(setup, Front(cs)).Accepted? ==> FreshIn(Trace(setup, Front(cs)).state, Last(cs)))
  }

  /** Every task is reported as created before it acts. */
  predicate Announced(setup: Setup, cs: seq<Callback>) {
    cs != [] ==>
      && Announced(setup, Front(cs))
      && (Trace(setup, Front(cs)).Accepted? ==> Known(Trace(setup, Front(cs)).state, Actor(Last(cs))))
  }

  /** A thread group ends with its leader; other threads end without consequence. */
  function LeaderGone(before: Outcome, c: Callback): set<int> {
    if before.Accepted? && c.Exited? && ProcessFor(before.state, c.tid) == c.tid then {c.tid} else {}
  }

  /** The thread groups whose leader has exited. */
  function Gone(setup: Setup, cs: seq<Callback>): set<int> {
    if cs == [] then {}
    else Gone(setup, Front(cs)) + LeaderGone(Trace(setup, Front(cs)), Last(cs))
  }

  predicate NoAfterExit(setup: Setup, cs: seq<Callback>) {
    cs != [] ==>
      && NoAfterExit(setup, Front(cs))
      && (Trace(setup, Front(cs)).Accepted? ==>
            ProcessFor(Trace(setup, Front(cs)).state, Actor(Last(cs))) !in Gone(setup, Front(cs)))
  }

  /** The time of the latest callback. */
  function Now(setup: Setup, cs: seq<Callback>): U64 {
    if cs == [] then setup.ns else Time(Last(cs))
  }

  predicate Monotone(setup: Setup, cs: seq<Callback>) {
    cs != [] ==> Monotone(setup, Front(cs)) && Now(setup, Front(cs)) <= Time(Last(cs))
  }

  // ---- Runs and their prefixes ----

  lemma {:induction false} PrefixOfRun(setup: Setup, a: seq<Callback>, b: seq<Callback>)
    requires Trace(setup, a + b).Accepted?
    ensures Trace(setup, a).Accepted?
    ensures FreshPids(setup, a + b) ==> FreshPids(setup, a)
    decreases |b|
  {
    if b == [] {
      assert a + b == a;
    } else {
      assert Front(a + b) == a + Front(b);
      PrefixOfRun(setup, a, Front(b));
    }
  }

  /** A log only grows. */
  lemma {:induction false} LogGrows(setup: Setup, a: seq<Callback>, b: seq<Callback>)
    requires Trace(setup, a + b).Accepted?
    ensures Trace(setup, a).Accepted? && Trace(setup, a).events <= Trace(setup, a + b).events
    decreases |b|
  {
    if b == [] {
      assert a + b == a;
    } else {
      assert Front(a + b) == a + Front(b);
      LogGrows(setup, a, Front(b));
    }
  }

  // ---- The structural invariant holds in every reachable state ----

  lemma StepKeepsValid(s: State, c: Callback)
    requires Valid(s) && FreshIn(s, c) && Step(s, c).Accepted?
    ensures Valid(Step(s, c).state)
  {
    match c
    case Marked(tid, m, ns) => MarkerKeepsValid(s, tid, m, ns);
    case Execed(tid, exe, cwd, ns) => ExecKeepsValid(s, tid, exe, cwd, ns);
    case Created(tid, child, event, flags, ns) => CreatedKeepsValid(s, tid, child, event, flags, ns);
    case Exited(tid, code, signal, ns) => ExitKeepsValid(s, tid, code, signal, ns);
    case Called(call, memory) => SyscallKeepsValid(s, call, memory);
  }

  lemma {:induction false} ReachableIsValid(setup: Setup, cs: seq<Callback>)
    requires Trace(setup, cs).Accepted? && FreshPids(setup, cs)
    ensures Valid(Trace(setup, cs).state) && Trace(setup, cs).state.root == setup.pid
    ensures cs != [] ==>
              && Trace(setup, Front(cs)).Accepted?
              && Valid(Trace(setup, Front(cs)).state)
              && Trace(setup, Front(cs)).state.processes.Keys <= Trace(setup, cs).state.processes.Keys
  {
    if cs != [] {
      ReachableIsValid(setup, Front(cs));
      var s := Trace(setup, Front(cs)).state;
      StepKeepsValid(s, Last(cs));
      StepKeepsKeys(s, Last(cs));
    }
  }

  lemma StepKeepsKeys(s: State, c: Callback)
    requires Step(s, c).Accepted?
    ensures s.processes.Keys <= Step(s, c).state.processes.Keys
    ensures Step(s, c).state.root == s.root
  {
  }

  // ---- What one step does to processes and which events it emits ----

  /** What a callback may change of a process that is already known. */
  predicate Framed(s: State, c: Callback, p: int, q: Process)
    requires p in s.processes
  {
    var o := s.processes[p];
    && q.pid == o.pid && q.parentPid == o.parentPid
    && (q.command != o.command ==> p == s.root && (c.Marked? || c.Exited?))
    && (q.executable != o.executable ==> c.Execed? && p == ProcessFor(s, c.tid))
    && (q.cwd != o.cwd || q.fds != o.fds ==> c.Called? && p == ProcessFor(s, c.call.tid))
  }

  /** Where the processes of the next state come from. */
  ghost predicate Inherited(s: State, c: Callback, p: int, q: Process) {
    if p in s.processes then Framed(s, c, p, q)
    else if c.Created? then
      && Known(s, c.tid) && p == c.child
      && q == Find(s, c.tid).(pid := c.child, parentPid := ProcessFor(s, c.tid))
    else
      && c.Execed? && p == c.tid && q.parentPid == 0 && q.command == None && q.fds == map[]
  }

  lemma MarkerInherits(s: State, c: Callback, p: int)
    requires Valid(s) && c.Marked? && Step(s, c).Accepted? && p in Step(s, c).state.processes
    ensures Inherited(s, c, p, Step(s, c).state.processes[p])
  {
  }

  lemma ExecInherits(s: State, c: Callback, p: int)
    requires Valid(s) && c.Execed? && p in Step(s, c).state.processes
    ensures Inherited(s, c, p, Step(s, c).state.processes[p])
  {
  }

  lemma CreationInherits(s: State, c: Callback, p: int)
    requires Valid(s) && c.Created? && FreshIn(s, c) && p in Step(s, c).state.processes
    ensures Inherited(s, c, p, Step(s, c).state.processes[p])
  {
  }

  lemma ExitInherits(s: State, c: Callback, p: int)
    requires Valid(s) && c.Exited? && p in Step(s, c).state.processes
    ensures Inherited(s, c, p, Step(s, c).state.processes[p])
  {
  }

  lemma CallInherits(s: State, c: Callback, p: int)
    requires Valid(s) && c.Called? && p in Step(s, c).state.processes
    ensures Inherited(s, c, p, Step(s, c).state.processes[p])
  {
    if Known(s, c.call.tid) {
      SyscallFrame(Find(s, c.call.tid), c.call, c.memory);
    }
  }

  /**
   A known process keeps what the callback is not about; a forked process is a copy of its
   parent; a process found at its exec starts without parent, command and descriptors.
   */
  lemma StepInherits(s: State, c: Callback, p: int)
    requires Valid(s) && FreshIn(s, c) && Step(s, c).Accepted?
    requires p in Step(s, c).state.processes
    ensures Inherited(s, c, p, Step(s, c).state.processes[p])
  {
    match c
    case Marked(_, _, _) => MarkerInherits(s, c, p);
    case Execed(_, _, _, _) => ExecInherits(s, c, p);
    case Created(_, _, _, _, _) => CreationInherits(s, c, p);
    case Exited(_, _, _, _) => ExitInherits(s, c, p);
    case Called(_, _) => CallInherits(s, c, p);
  }

  /**
   Every event is about the actor's process and carries that process's command, which only
   events of the root may lack.
   */
  ghost predicate Reports(s: State, c: Callback, s1: State, e: Event) {
    && e.pid == ProcessFor(s, Actor(c)) && e.tid == Actor(c)
    && e.pid in s1.processes
    && (e.pid != s.root ==> e.command == s1.processes[e.pid].command && !e.kind.CommandStart? && !e.kind.CommandEnd?)
    && (e.command.Some? ==> e.pid in s.processes && s.processes[e.pid].command == e.command)
    && (e.kind.CommandStart? || e.ns == Time(c))
  }

  lemma MarkerReports(s: State, c: Callback, e: Event)
    requires Valid(s) && c.Marked? && Step(s, c).Accepted? && e in Step(s, c).events
    ensures Reports(s, c, Step(s, c).state, e)
  {
  }

  lemma ExecReports(s: State, c: Callback, e: Event)
    requires Valid(s) && c.Execed? && e in Step(s, c).events
    ensures Reports(s, c, Step(s, c).state, e)
  {
  }

  lemma CreationReports(s: State, c: Callback, e: Event)
    requires Valid(s) && c.Created? && FreshIn(s, c) && e in Step(s, c).events
    ensures Reports(s, c, Step(s, c).state, e)
  {
  }

  lemma ExitReports(s: State, c: Callback, e: Event)
    requires Valid(s) && c.Exited? && e in Step(s, c).events
    ensures Reports(s, c, Step(s, c).state, e)
  {
  }

  lemma CallReports(s: State, c: Callback, e: Event)
    requires Valid(s) && c.Called? && e in Step(s, c).events
    ensures Reports(s, c, Step(s, c).state, e)
  {
    SyscallFrame(Find(s, c.call.tid), c.call, c.memory);
  }

  lemma StepReports(s: State, c: Callback, e: Event)
    requires Valid(s) && FreshIn(s, c) && Step(s, c).Accepted?
    requires e in Step(s, c).events
    ensures Reports(s, c, Step(s, c).state, e)
  {
    match c
    case Marked(_, _, _) => MarkerReports(s, c, e);
    case Execed(_, _, _, _) => ExecReports(s, c, e);
    case Created(_, _, _, _, _) => CreationReports(s, c, e);
    case Exited(_, _, _, _) => ExitReports(s, c, e);
    case Called(_, _) => CallReports(s, c, e);
  }
}
