/**
 Which descriptors of the shell lead to the command channel. The tracked set is compared with
 a kernel table that maps descriptors to open files.
 */
module Channel {
  import opened Wrappers
  import opened Text
  import opened Events

  const F_DUPFD: int := 0
  const F_DUPFD_CLOEXEC: int := 1030

  predicate DuplicatesByFcntl(call: RawSyscall) {
    call.name.Fcntl? && (call.args[1] == F_DUPFD || call.args[1] == F_DUPFD_CLOEXEC)
  }

  function Assign(aliases: set<int>, fd: int, isAlias: bool): set<int> {
    if isAlias then aliases + {fd} else aliases - {fd}
  }

  /** What one finished system call does to the set. */
  function Observed(aliases: set<int>, call: RawSyscall): set<int> {
    var source := Fd(call, 0);
    if call.result < 0 then aliases
    else if call.name.Close? then aliases - {source}
    else if call.name.Dup? then Assign(aliases, ToI32(call.result), source in aliases)
    else if call.name.Dup2? || call.name.Dup3? then
      if source == Fd(call, 1) then aliases else Assign(aliases, Fd(call, 1), source in aliases)
    else if DuplicatesByFcntl(call) then Assign(aliases, ToI32(call.result), source in aliases)
    else aliases
  }

  function Receiving(aliases: set<int>, call: RawSyscall): bool {
    call.name.Write? && Fd(call, 0) in aliases
  }

  class CommandChannelTracker {
    var aliases: set<int>

    constructor (channelFd: Option<int>)
      ensures aliases == if channelFd.Some? then {channelFd.value} else {}
    {
      aliases := if channelFd.Some? then {channelFd.value} else {};
    }

    predicate Receives(call: RawSyscall)
      reads this
    {
      Receiving(aliases, call)
    }

    method AssignAlias(fd: int, isAlias: bool)
      modifies this
      ensures aliases == Assign(old(aliases), fd, isAlias)
    {
      if isAlias {
        aliases := aliases + {fd};
      } else {
        aliases := aliases - {fd};
      }
    }

    method Observe(call: RawSyscall)
      modifies this
      ensures aliases == Observed(old(aliases), call)
    {
      if call.result < 0 {
        return;
      }
      var source := Fd(call, 0);
      if call.name.Close? {
        aliases := aliases - {source};
        return;
      }
      if call.name.Dup? {
        AssignAlias(ToI32(call.result), source in aliases);
        return;
      }
      if call.name.Dup2? || call.name.Dup3? {
        var destination := Fd(call, 1);
        if source != destination {
          AssignAlias(destination, source in aliases);
        }
        return;
      }
      if DuplicatesByFcntl(call) {
        AssignAlias(ToI32(call.result), source in aliases);
      }
    }
  }

  // ---- The reference table ----

  /** Descriptors lead to numbered open files; the channel is one of them. */
  type Table = map<int, nat>

  /** A finished call and the descriptors it allocates for new files, such as the two ends of a pipe. */
  datatype Finished = Finished(call: RawSyscall, newFds: set<int>)

  predicate DupLike(call: RawSyscall) {
    call.name.Dup? || call.name.Dup2? || call.name.Dup3?
    || (call.name.Fcntl? && (Fd(call, 1) == F_DUPFD || Fd(call, 1) == F_DUPFD_CLOEXEC))
  }

  /** Where a duplication puts its copy. */
  function Target(call: RawSyscall): int {
    if call.name.Dup2? || call.name.Dup3? then Fd(call, 1) else call.result
  }

  /** Results that the kernel may give: descriptors fit into an int, and new ones are free. */
  predicate Possible(table: Table, f: Finished) {
    var call := f.call;
    && (call.name.Close? && call.result >= 0 ==> Fd(call, 0) in table)
    && (DupLike(call) && call.result >= 0 ==>
          && call.result < 0x8000_0000
          && Fd(call, 0) in table
          && (call.name.Dup2? || call.name.Dup3? ==> call.result == Target(call))
          && (call.name.Dup? || call.name.Fcntl? ==> Target(call) !in table))
    && (f.newFds != {} ==> call.result >= 0 && !call.name.Close? && !DupLike(call))
    && f.newFds !! table.Keys
  }

  /** The table after the call; newly allocated descriptors lead to the file numbered next. */
  function KernelStep(table: Table, f: Finished, next: nat): Table
    requires Possible(table, f)
  {
    var call := f.call;
    if call.result < 0 then table
    else if call.name.Close? then table - {Fd(call, 0)}
    else if DupLike(call) then table[Target(call) := table[Fd(call, 0)]]
    else table + map fd <- f.newFds :: next
  }

  /**
   A duplication by fcntl whose command the tracker does not recognise: it compares the whole
   register, whereas the kernel looks at its lower half.
   */
  predicate Overlooked(call: RawSyscall) {
    call.name.Fcntl? && DupLike(call) && !DuplicatesByFcntl(call) && call.result >= 0
  }

  function Leading(table: Table, file: nat): set<int> {
    set fd <- table | table[fd] == file
  }

  /** A call keeps the set exact, unless it copies the channel's descriptor without being recognised. */
  lemma StepKeepsAliases(table: Table, f: Finished, next: nat, channel: nat)
    requires Possible(table, f) && next != channel
    ensures Observed(Leading(table, channel), f.call) == Leading(KernelStep(table, f, next), channel) <==>
            !(Overlooked(f.call) && table[Fd(f.call, 0)] == channel)
  {
    var call, aliases, after := f.call, Leading(table, channel), KernelStep(table, f, next);
    if call.result >= 0 && DupLike(call) {
      assert Fd(call, 0) in aliases <==> table[Fd(call, 0)] == channel;
      forall fd ensures fd in Leading(after, channel) <==>
                        (if fd == Target(call) then Fd(call, 0) in aliases else fd in aliases) {
      }
      assert Overlooked(call) ==> Observed(aliases, call) == aliases && Target(call) !in aliases;
    }
  }

  /** A shell that sets a bit in the unused half of the register makes a copy that is not followed. */
  lemma HighCommandIsOverlooked() returns (table: Table, f: Finished)
    ensures Possible(table, f) && Leading(table, 0) == {9}
    ensures Observed(Leading(table, 0), f.call) == {9}
    ensures Leading(KernelStep(table, f, 1), 0) == {9, 10}
  {
    table := map[9 := 0];
    f := Finished(RawSyscall(7, Fcntl, [9, 0x1_0000_0000, 0, 0, 0, 0], 10, 0), {});
    assert Fd(f.call, 0) == 9 && Fd(f.call, 1) == F_DUPFD;
    assert KernelStep(table, f, 1) == map[9 := 0, 10 := 0];
  }

  /** A run of finished calls; new files are numbered upwards. */
  function KernelRun(table: Table, next: nat, fs: seq<Finished>): Option<Table> {
    if fs == [] then Some(table)
    else
      var before :- KernelRun(table, next, fs[..|fs| - 1]);
      if Possible(before, fs[|fs| - 1]) then Some(KernelStep(before, fs[|fs| - 1], next + |fs|)) else None
  }

  function ObservedAll(aliases: set<int>, fs: seq<Finished>): set<int> {
    if fs == [] then aliases else Observed(ObservedAll(aliases, fs[..|fs| - 1]), fs[|fs| - 1].call)
  }

  /** No copy of the channel's descriptor is overlooked. */
  predicate Followed(table: Table, next: nat, channel: nat, fs: seq<Finished>)
    requires KernelRun(table, next, fs).Some?
  {
    fs != [] ==>
      var k := |fs| - 1;
      && Followed(table, next, channel, fs[..k])
      && !(Overlooked(fs[k].call) && KernelRun(table, next, fs[..k]).value[Fd(fs[k].call, 0)] == channel)
  }

  predicate Exact(table: Table, next: nat, channel: nat, fs: seq<Finished>)
    requires KernelRun(table, next, fs).Some?
  {
    ObservedAll(Leading(table, channel), fs) == Leading(KernelRun(table, next, fs).value, channel)
  }

  /** The tracked set is right from the first call to the last. */
  predicate AlwaysExact(table: Table, next: nat, channel: nat, fs: seq<Finished>)
    requires KernelRun(table, next, fs).Some?
  {
    && Exact(table, next, channel, fs)
    && (fs != [] ==> AlwaysExact(table, next, channel, fs[..|fs| - 1]))
  }

  /**
   In any run that the kernel allows, the tracked set is always exactly the set of descriptors
   that lead to the channel's open file, if and only if no copy of such a descriptor is overlooked.
   */
  lemma {:induction false} AliasesAreExact(table: Table, next: nat, channel: nat, fs: seq<Finished>)
    requires channel <= next && KernelRun(table, next, fs).Some?
    ensures AlwaysExact(table, next, channel, fs) <==> Followed(table, next, channel, fs)
  {
    if fs != [] {
      var k := |fs| - 1;
      AliasesAreExact(table, next, channel, fs[..k]);
      if Exact(table, next, channel, fs[..k]) {
        StepKeepsAliases(KernelRun(table, next, fs[..k]).value, fs[k], next + |fs|, channel);
      }
    }
  }

  /** So a write counts as a channel write exactly if its descriptor leads to the channel. */
  lemma {:induction false} ReceivesExactly(table: Table, next: nat, fs: seq<Finished>, fd: int, call: RawSyscall)
    requires fd in table && table[fd] <= next && Leading(table, table[fd]) == {fd}
    requires KernelRun(table, next, fs).Some? && Followed(table, next, table[fd], fs)
    ensures var after := KernelRun(table, next, fs).value;
            Receiving(ObservedAll({fd}, fs), call) <==>
            call.name.Write? && Fd(call, 0) in after && after[Fd(call, 0)] == table[fd]
  {
    AliasesAreExact(table, next, table[fd], fs);
    assert Exact(table, next, table[fd], fs);
  }
}
