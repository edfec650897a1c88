/**
 The descriptor tables against the kernel's: tasks share table objects, tables hold numbers
 of open files, and forks copy a table while threads share it. Open files that the tracker
 has not seen being opened are opaque.
 */
module Descriptors {
  import opened Wrappers
  import opened Text
  import opened Events
  import opened Tracker
  import opened Runs

  datatype OpenFile = OpenFile(kind: ResourceType, name: string, isDirectory: bool) | Opaque

  /** tasks lead to tables, tables lead to open files. */
  datatype Kernel = Kernel(tasks: map<int, nat>, tables: seq<map<int, nat>>, files: seq<OpenFile>)

  /** A callback together with the descriptors that an unobserved call, such as pipe, allocates. */
  datatype Joint = Joint(callback: Callback, newFds: set<int>)

  predicate WellFormed(k: Kernel) {
    && (forall t <- k.tasks :: k.tasks[t] < |k.tables|)
    && (forall i | 0 <= i < |k.tables| :: forall fd <- k.tables[i] :: k.tables[i][fd] < |k.files|)
  }

  function Table(k: Kernel, t: int): map<int, nat>
    requires WellFormed(k) && t in k.tasks
  {
    k.tables[k.tasks[t]]
  }

  function SetTable(k: Kernel, t: int, table: map<int, nat>): Kernel
    requires WellFormed(k) && t in k.tasks
  {
    k.(tables := k.tables[k.tasks[t] := table])
  }

  /** A new open file appears under a descriptor. */
  function Allocate(k: Kernel, t: int, fd: int, file: OpenFile): Kernel
    requires WellFormed(k) && t in k.tasks
  {
    SetTable(k, t, Table(k, t)[fd := |k.files|]).(files := k.files + [file])
  }

  /** New descriptors of files that are not observed; these files need not be told apart. */
  function AllocateOpaque(k: Kernel, t: int, fds: set<int>): Kernel
    requires WellFormed(k) && t in k.tasks
  {
    SetTable(k, t, Table(k, t) + map fd <- fds :: |k.files|).(files := k.files + [Opaque])
  }

  predicate OpensFile(call: RawSyscall) {
    call.name.Open? || call.name.OpenAt? || call.name.OpenAt2?
  }

  predicate Duplicates(call: RawSyscall) {
    call.name.Dup? || call.name.Dup2? || call.name.Dup3?
  }

  function DirectoryFlag(call: RawSyscall, memory: Memory): bool {
    HasFlag(if call.name.Open? then call.args[1] else OpenAtFlags(call, memory), O_DIRECTORY)
  }

  /** Which results the kernel may return. */
  predicate Allows(k: Kernel, j: Joint)
    requires WellFormed(k)
  {
    && Actor(j.callback) in k.tasks
    && (j.callback.Called? ==>
          var call, table := j.callback.call, Table(k, j.callback.call.tid);
          && (OpensFile(call) || call.name.Socket? || Duplicates(call) ==> call.result < 0x8000_0000)
          && ((OpensFile(call) || call.name.Socket?) && call.result >= 0 ==> call.result !in table)
          && (call.name.Close? && call.result == 0 ==> Fd(call, 0) in table)
          && (Duplicates(call) && call.result >= 0 ==>
                && Fd(call, 0) in table
                && (call.name.Dup? ==> call.result !in table)))
    && (j.newFds != {} ==>
          && j.callback.Called? && j.callback.call.name.OtherCall?
          && j.newFds !! Table(k, j.callback.call.tid).Keys)
  }

  function CallInKernel(k: Kernel, call: RawSyscall, memory: Memory, path: string, newFds: set<int>): Kernel
    requires WellFormed(k) && call.tid in k.tasks
    requires Duplicates(call) && call.result >= 0 ==> Fd(call, 0) in Table(k, call.tid)
  {
    var table := Table(k, call.tid);
    if call.result < 0 && !call.name.OtherCall? then k
    else if OpensFile(call) then
      Allocate(k, call.tid, call.result, OpenFile(FileResource, path, DirectoryFlag(call, memory)))
    else if call.name.Socket? then
      Allocate(k, call.tid, call.result, OpenFile(SocketResource, "<socket>", false))
    else if call.name.Close? && call.result == 0 then SetTable(k, call.tid, table - {Fd(call, 0)})
    else if Duplicates(call) then SetTable(k, call.tid, table[call.result := table[Fd(call, 0)]])
    else if newFds != {} then AllocateOpaque(k, call.tid, newFds)
    else k
  }

  /** The kernel's own step; the name is the one under which an open is reported. */
  function KernelStep(k: Kernel, j: Joint, path: string): Kernel
    requires WellFormed(k) && Allows(k, j)
  {
    match j.callback
    case Created(t, child, event, flags, _) =>
      if IsThread(event, flags) then k.(tasks := k.tasks[child := k.tasks[t]])
      else Kernel(k.tasks[child := |k.tables|], k.tables + [Table(k, t)], k.files)
    case Exited(t, _, _, _) => k.(tasks := k.tasks - {t})
    case Called(call, memory) => CallInKernel(k, call, memory, path, j.newFds)
    case _ => k
  }

  lemma KernelStepWellFormed(k: Kernel, j: Joint, path: string)
    requires WellFormed(k) && Allows(k, j)
    ensures WellFormed(KernelStep(k, j, path))
  {
  }

  // ---- The refinement relation ----

  /** The tracked table and the kernel's agree on all that is not opaque. */
  predicate Agree(fds: map<int, Resource>, table: map<int, nat>, files: seq<OpenFile>)
    requires forall fd <- table :: table[fd] < |files|
  {
    && (forall fd <- fds :: fd in table && files[table[fd]].OpenFile? && Same(fds[fd], files[table[fd]]))
    && (forall fd <- table :: files[table[fd]].OpenFile? ==> fd in fds)
  }

  /** connect renames the tracked socket; files keep the name of their open. */
  predicate Same(r: Resource, f: OpenFile)
    requires f.OpenFile?
  {
    r.kind == f.kind && r.isDirectory == f.isDirectory && (r.kind.FileResource? ==> r.name == f.name)
  }

  predicate Refines(s: State, k: Kernel)
    requires WellFormed(k)
  {
    && (forall t <- k.tasks :: Known(s, t) && Agree(Find(s, t).fds, Table(k, t), k.files))
    && (forall t <- k.tasks, u <- k.tasks :: k.tasks[t] == k.tasks[u] <==> ProcessFor(s, t) == ProcessFor(s, u))
  }

  function Label(events: seq<Event>): string {
    if events == [] then "" else events[0].resource
  }

  lemma AgreeWithMoreFiles(fds: map<int, Resource>, table: map<int, nat>, files: seq<OpenFile>, file: OpenFile)
    requires (forall fd <- table :: table[fd] < |files|) && Agree(fds, table, files)
    ensures Agree(fds, table, files + [file])
  {
    forall fd <- table ensures (files + [file])[table[fd]] == files[table[fd]] {
    }
  }

  lemma InstallAgrees(fds: map<int, Resource>, table: map<int, nat>, files: seq<OpenFile>, fd: int, r: Resource)
    requires (forall d <- table :: table[d] < |files|) && Agree(fds, table, files)
    ensures var file := OpenFile(r.kind, r.name, r.isDirectory);
            Agree(fds[fd := r], table[fd := |files|], files + [file])
  {
    AgreeWithMoreFiles(fds, table, files, OpenFile(r.kind, r.name, r.isDirectory));
  }

  lemma OpaqueAgrees(fds: map<int, Resource>, table: map<int, nat>, files: seq<OpenFile>, newFds: set<int>)
    requires (forall d <- table :: table[d] < |files|) && Agree(fds, table, files) && newFds !! table.Keys
    ensures Agree(fds, table + map fd <- newFds :: |files|, files + [Opaque])
  {
    AgreeWithMoreFiles(fds, table, files, Opaque);
  }

  lemma RemoveAgrees(fds: map<int, Resource>, table: map<int, nat>, files: seq<OpenFile>, fd: int)
    requires (forall d <- table :: table[d] < |files|) && Agree(fds, table, files)
    ensures Agree(fds - {fd}, table - {fd}, files)
  {
  }

  lemma DupAgrees(fds: map<int, Resource>, table: map<int, nat>, files: seq<OpenFile>, from: int, to: int)
    requires (forall d <- table :: table[d] < |files|) && Agree(fds, table, files) && from in table
    ensures Agree(DupFds(fds, from, to), table[to := table[from]], files)
  {
  }

  lemma RenameAgrees(fds: map<int, Resource>, table: map<int, nat>, files: seq<OpenFile>, fd: int, name: string)
    requires (forall d <- table :: table[d] < |files|) && Agree(fds, table, files)
    requires fd in fds && fds[fd].kind.SocketResource?
    ensures Agree(fds[fd := fds[fd].(name := name)], table, files)
  {
  }

  /** What a system call can do to a tracked table, its open being reported under this path. */
  ghost predicate Tracks(
    fds: map<int, Resource>, fds1: map<int, Resource>, call: RawSyscall, memory: Memory, path: string)
  {
    var fd := Fd(call, 0);
    if call.name.Connect? then
      fds1 == fds || (fd in fds && fds[fd].kind.SocketResource? && exists n :: fds1 == fds[fd := fds[fd].(name := n)])
    else if call.result < 0 then fds1 == fds
    else if OpensFile(call) then
      fds1 == fds[ToI32(call.result) := Resource(FileResource, path, DirectoryFlag(call, memory))]
    else if call.name.Socket? then
      fds1 == fds[ToI32(call.result) := Resource(SocketResource, "<socket>", false)]
    else if call.name.Close? && call.result == 0 then fds1 == fds - {fd}
    else if Duplicates(call) then fds1 == DupFds(fds, fd, ToI32(call.result))
    else fds1 == fds
  }

  function PathOf(event: Option<Event>): string {
    if event.Some? then event.value.resource else ""
  }

  lemma CallTracks(p: Process, call: RawSyscall, memory: Memory)
    ensures var effect := SyscallEffect(p, call, memory);
            Tracks(p.fds, effect.process.fds, call, memory, PathOf(effect.event))
  {
  }

  /** One system call keeps the two tables of its process in agreement. */
  lemma TrackedAgrees(fds: map<int, Resource>, fds1: map<int, Resource>, path: string, k: Kernel, j: Joint)
    requires WellFormed(k) && Allows(k, j) && j.callback.Called?
    requires Agree(fds, Table(k, j.callback.call.tid), k.files)
    requires Tracks(fds, fds1, j.callback.call, j.callback.memory, path)
    ensures var call, memory := j.callback.call, j.callback.memory;
            var k1 := CallInKernel(k, call, memory, path, j.newFds);
            && WellFormed(k1) && k1.tasks == k.tasks
            && Agree(fds1, Table(k1, call.tid), k1.files)
  {
    var call, memory := j.callback.call, j.callback.memory;
    var table, fd := Table(k, call.tid), Fd(call, 0);
    if call.name.OtherCall? && j.newFds != {} {
      OpaqueAgrees(fds, table, k.files, j.newFds);
    } else if call.name.Connect? && fds1 != fds {
      RenameAgrees(fds, table, k.files, fd, fds1[fd].name);
    } else if call.result >= 0 {
      assert call.result < 0x8000_0000 ==> ToI32(call.result) == call.result;
      if OpensFile(call) {
        InstallAgrees(fds, table, k.files, call.result, Resource(FileResource, path, DirectoryFlag(call, memory)));
      } else if call.name.Socket? {
        InstallAgrees(fds, table, k.files, call.result, Resource(SocketResource, "<socket>", false));
      } else if call.name.Close? {
        RemoveAgrees(fds, table, k.files, fd);
      } else if Duplicates(call) {
        DupAgrees(fds, table, k.files, fd, call.result);
      }
    }
  }

  /** Tables of other processes are not touched. */
  lemma CallFrame(k: Kernel, j: Joint, path: string, t: int)
    requires WellFormed(k) && Allows(k, j) && j.callback.Called? && t in k.tasks
    ensures var k1 := CallInKernel(k, j.callback.call, j.callback.memory, path, j.newFds);
            && WellFormed(k1) && k1.tasks == k.tasks && |k1.tables| == |k.tables|
            && (k.tasks[t] != k.tasks[j.callback.call.tid] ==> Table(k1, t) == Table(k, t))
            && (k1.files == k.files || exists f :: k1.files == k.files + [f])
  {
  }

  /** A change to one process's table, matched by a change to that table alone. */
  lemma UpdateRefines(s: State, k: Kernel, tid: int, p: Process, k1: Kernel)
    requires WellFormed(k) && Refines(s, k) && tid in k.tasks
    requires WellFormed(k1) && k1.tasks == k.tasks
    requires Agree(p.fds, Table(k1, tid), k1.files)
    requires forall t <- k.tasks :: k.tasks[t] != k.tasks[tid] ==> Table(k1, t) == Table(k, t)
    requires k1.files == k.files || exists f :: k1.files == k.files + [f]
    ensures Refines(SetProcess(s, ProcessFor(s, tid), p), k1)
  {
    var s1 := SetProcess(s, ProcessFor(s, tid), p);
    forall t <- k1.tasks
      ensures Known(s1, t) && Agree(Find(s1, t).fds, Table(k1, t), k1.files) && ProcessFor(s1, t) == ProcessFor(s, t)
    {
      assert Known(s, t);
      if k.tasks[t] != k.tasks[tid] && k1.files != k.files {
        var f :| k1.files == k.files + [f];
        AgreeWithMoreFiles(Find(s, t).fds, Table(k, t), k.files, f);
      }
    }
  }

  lemma CalledRefines(s: State, k: Kernel, j: Joint)
    requires Valid(s) && WellFormed(k) && Refines(s, k) && Allows(k, j) && j.callback.Called?
    ensures var outcome := Step(s, j.callback);
            var k1 := KernelStep(k, j, Label(outcome.events));
            WellFormed(k1) && Refines(outcome.state, k1)
  {
    var call, memory := j.callback.call, j.callback.memory;
    assert Known(s, call.tid);
    var p := Find(s, call.tid);
    var effect := SyscallEffect(p, call, memory);
    var path := PathOf(effect.event);
    CallTracks(p, call, memory);
    TrackedAgrees(p.fds, effect.process.fds, path, k, j);
    var k1 := CallInKernel(k, call, memory, path, j.newFds);
    forall t <- k.tasks
      ensures k.tasks[t] != k.tasks[call.tid] ==> Table(k1, t) == Table(k, t)
      ensures k1.files == k.files || exists f :: k1.files == k.files + [f]
    {
      CallFrame(k, j, path, t);
    }
    UpdateRefines(s, k, call.tid, effect.process, k1);
    StepLabel(s, call, memory, p, path);
  }

  lemma StepLabel(s: State, call: RawSyscall, memory: Memory, p: Process, path: string)
    requires Known(s, call.tid) && p == Find(s, call.tid)
    requires path == PathOf(SyscallEffect(p, call, memory).event)
    ensures Label(OnSyscall(s, call, memory).events) == path
    ensures OnSyscall(s, call, memory).state ==
            SetProcess(s, ProcessFor(s, call.tid), SyscallEffect(p, call, memory).process)
  {
  }

  lemma ThreadRefines(s: State, k: Kernel, parent: Tid, child: Tid)
    requires Valid(s) && WellFormed(k) && Refines(s, k) && parent in k.tasks && FreshTid(s, child)
    ensures var k1 := k.(tasks := k.tasks[child := k.tasks[parent]]);
            WellFormed(k1) && Refines(s.(threads := s.threads[child := ProcessFor(s, parent)]), k1)
  {
    var k1, s1 := k.(tasks := k.tasks[child := k.tasks[parent]]), s.(threads := s.threads[child := ProcessFor(s, parent)]);
    assert Known(s, parent) && child !in k.tasks;
    forall t <- k1.tasks
      ensures Known(s1, t) && Agree(Find(s1, t).fds, Table(k1, t), k1.files)
      ensures ProcessFor(s1, t) == ProcessFor(s, if t == child then parent else t)
    {
      assert t != child ==> Known(s, t);
    }
  }

  lemma ForkRefines(s: State, k: Kernel, parent: Tid, child: Tid, s1: State)
    requires Valid(s) && WellFormed(k) && Refines(s, k) && parent in k.tasks && FreshTid(s, child)
    requires s1.threads == s.threads[child := child]
    requires child in s1.processes && Known(s, parent) && s1.processes[child].fds == Find(s, parent).fds
    requires forall p <- s.processes :: p in s1.processes && s1.processes[p].fds == s.processes[p].fds
    ensures var k1 := Kernel(k.tasks[child := |k.tables|], k.tables + [Table(k, parent)], k.files);
            WellFormed(k1) && Refines(s1, k1)
  {
    var k1 := Kernel(k.tasks[child := |k.tables|], k.tables + [Table(k, parent)], k.files);
    assert child !in k.tasks;
    forall t <- k1.tasks
      ensures Known(s1, t) && Agree(Find(s1, t).fds, Table(k1, t), k1.files)
      ensures ProcessFor(s1, t) == if t == child then child else ProcessFor(s, t)
      ensures t != child ==> ProcessFor(s, t) != child && k1.tasks[t] == k.tasks[t] < |k.tables|
    {
      if t != child {
        assert Known(s, t) && Table(k1, t) == Table(k, t);
      } else {
        assert Table(k1, child) == Table(k, parent);
      }
    }
  }

  lemma CreatedRefines(s: State, k: Kernel, j: Joint)
    requires Valid(s) && WellFormed(k) && Refines(s, k) && Allows(k, j)
    requires j.callback.Created? && FreshIn(s, j.callback)
    ensures var k1 := KernelStep(k, j, Label(Step(s, j.callback).events));
            WellFormed(k1) && Refines(Step(s, j.callback).state, k1)
  {
    var c := j.callback;
    assert Known(s, c.tid);
    if IsThread(c.event, c.cloneFlags) {
      ThreadRefines(s, k, c.tid, c.child);
    } else {
      ForkRefines(s, k, c.tid, c.child, Step(s, c).state);
    }
  }

  /** A thread finds its process again, with the same table. */
  predicate SameTable(s: State, s1: State, t: int)
    requires Known(s, t)
  {
    Known(s1, t) && ProcessFor(s1, t) == ProcessFor(s, t) && Find(s1, t).fds == Find(s, t).fds
  }

  lemma ExitFrame(s: State, tid: Tid, code: I32, signal: I32, ns: U64, t: int)
    requires Valid(s) && Known(s, t) && t != tid
    ensures SameTable(s, OnExit(s, tid, code, signal, ns).state, t)
  {
  }

  lemma ExecFrame(s: State, tid: Tid, exe: string, cwd: string, ns: U64, t: int)
    requires Valid(s) && Known(s, tid) && Known(s, t)
    ensures SameTable(s, OnExec(s, tid, exe, cwd, ns).state, t)
  {
  }

  /** Markers, execs and exits leave the tables and the other tasks alone. */
  lemma OtherFrame(s: State, c: Callback, t: int)
    requires Valid(s) && Step(s, c).Accepted? && Known(s, Actor(c)) && Known(s, t)
    requires c.Marked? || c.Execed? || (c.Exited? && t != c.tid)
    ensures SameTable(s, Step(s, c).state, t)
  {
    match c
    case Exited(tid, code, signal, ns) => ExitFrame(s, tid, code, signal, ns, t);
    case Execed(tid, exe, cwd, ns) => ExecFrame(s, tid, exe, cwd, ns, t);
    case _ =>
  }

  lemma OtherRefines(s: State, k: Kernel, j: Joint)
    requires Valid(s) && WellFormed(k) && Refines(s, k) && Allows(k, j) && Step(s, j.callback).Accepted?
    requires j.callback.Marked? || j.callback.Execed? || j.callback.Exited?
    ensures var k1 := KernelStep(k, j, Label(Step(s, j.callback).events));
            WellFormed(k1) && Refines(Step(s, j.callback).state, k1)
  {
    var s1, k1 := Step(s, j.callback).state, KernelStep(k, j, Label(Step(s, j.callback).events));
    forall t <- k1.tasks
      ensures Known(s1, t) && Agree(Find(s1, t).fds, Table(k1, t), k1.files)
      ensures t in k.tasks && k1.tasks[t] == k.tasks[t] && ProcessFor(s1, t) == ProcessFor(s, t)
    {
      assert Known(s, t) && Known(s, Actor(j.callback));
      OtherFrame(s, j.callback, t);
    }
  }

  // ---- Joint runs ----

  function Callbacks(js: seq<Joint>): seq<Callback> {
    if js == [] then [] else Callbacks(Front(js)) + [Last(js).callback]
  }

  /** The root starts with inherited descriptors only. */
  function Boot(setup: Setup, inherited: set<int>): Kernel {
    Kernel(map[setup.pid := 0], [map fd <- inherited :: 0], [Opaque])
  }

  /** The kernel after a joint run, as long as it allowed every result. */
  function KernelRun(setup: Setup, inherited: set<int>, js: seq<Joint>): (k: Option<Kernel>)
    ensures k.Some? ==> WellFormed(k.value)
  {
    if js == [] then Some(Boot(setup, inherited))
    else
      var before, outcome := KernelRun(setup, inherited, Front(js)), Trace(setup, Callbacks(Front(js)));
      if before.None? || outcome.Refused? || !Allows(before.value, Last(js)) then None
      else
        match Step(outcome.state, Last(js).callback)
        case Refused(_) => None
        case Accepted(_, events) =>
          KernelStepWellFormed(before.value, Last(js), Label(events));
          Some(KernelStep(before.value, Last(js), Label(events)))
  }

  lemma {:induction false} CallbacksFront(js: seq<Joint>)
    requires js != []
    ensures Callbacks(js) != []
    ensures Front(Callbacks(js)) == Callbacks(Front(js)) && Last(Callbacks(js)) == Last(js).callback
  {
  }

  /**
   For any interleaving of opens, closes, duplications, sockets, forks and threads that the
   kernel allows, the tracked table of every living task agrees with the kernel's table.
   */
  lemma {:induction false} TablesRefineKernel(setup: Setup, inherited: set<int>, js: seq<Joint>)
    requires KernelRun(setup, inherited, js).Some? && FreshPids(setup, Callbacks(js))
    ensures Trace(setup, Callbacks(js)).Accepted?
    ensures Refines(Trace(setup, Callbacks(js)).state, KernelRun(setup, inherited, js).value)
  {
    if js != [] {
      CallbacksFront(js);
      TablesRefineKernel(setup, inherited, Front(js));
      ReachableIsValid(setup, Callbacks(Front(js)));
      var s, k, j := Trace(setup, Callbacks(Front(js))).state, KernelRun(setup, inherited, Front(js)).value, Last(js);
      StepRefines(s, k, j);
    }
  }

  lemma StepRefines(s: State, k: Kernel, j: Joint)
    requires Valid(s) && WellFormed(k) && Refines(s, k) && Allows(k, j)
    requires FreshIn(s, j.callback) && Step(s, j.callback).Accepted?
    ensures var k1 := KernelStep(k, j, Label(Step(s, j.callback).events));
            WellFormed(k1) && Refines(Step(s, j.callback).state, k1)
  {
    if j.callback.Called? {
      CalledRefines(s, k, j);
    } else if j.callback.Created? {
      CreatedRefines(s, k, j);
    } else {
      OtherRefines(s, k, j);
    }
  }

  lemma TransferFollowsTable(s: State, call: RawSyscall, memory: Memory, table: map<int, nat>, files: seq<OpenFile>)
    requires Known(s, call.tid) && (call.name.Read? || call.name.Write?)
    requires (forall fd <- table :: table[fd] < |files|) && Agree(Find(s, call.tid).fds, table, files)
    ensures var events := OnSyscall(s, call, memory).events;
            if Fd(call, 0) in table && files[table[Fd(call, 0)]].OpenFile?
               && files[table[Fd(call, 0)]].kind.FileResource?
            then |events| == 1 && events[0].resource == files[table[Fd(call, 0)]].name
            else events == []
  {
    var fd := Fd(call, 0);
    assert SyscallEffect(Find(s, call.tid), call, memory) == TransferEffect(Find(s, call.tid), call);
    assert fd in Find(s, call.tid).fds <==> fd in table && files[table[fd]].OpenFile?;
  }

  /**
   What a read or write reports: an event appears exactly if the kernel's descriptor leads to
   a file whose opening was observed, and it names that file as it was named when opened.
   */
  lemma {:induction false} TransferNamesOpenFile(setup: Setup, inherited: set<int>, js: seq<Joint>, call: RawSyscall, memory: Memory)
    requires KernelRun(setup, inherited, js).Some? && FreshPids(setup, Callbacks(js))
    requires call.name.Read? || call.name.Write?
    requires call.tid in KernelRun(setup, inherited, js).value.tasks
    ensures Trace(setup, Callbacks(js)).Accepted?
    ensures var k := KernelRun(setup, inherited, js).value;
            var table := Table(k, call.tid);
            var events := OnSyscall(Trace(setup, Callbacks(js)).state, call, memory).events;
            if Fd(call, 0) in table && k.files[table[Fd(call, 0)]].OpenFile?
               && k.files[table[Fd(call, 0)]].kind.FileResource?
            then |events| == 1 && events[0].resource == k.files[table[Fd(call, 0)]].name
            else events == []
  {
    TablesRefineKernel(setup, inherited, js);
    var k := KernelRun(setup, inherited, js).value;
    TransferFollowsTable(Trace(setup, Callbacks(js)).state, call, memory, Table(k, call.tid), k.files);
  }
}
