/** Every recorded transfer names a file that was opened successfully earlier in the log. */
module Provenance {
  import opened Wrappers
  import opened Text
  import opened Events
  import opened Tracker
  import opened Runs

  /** The names under which files were opened. */
  function Opened(log: seq<Event>): set<string> {
    set e <- log | e.kind.FileOpen? && e.result >= 0 :: e.resource
  }

  predicate NamesOpened(fds: map<int, Resource>, names: set<string>) {
    forall fd <- fds :: fds[fd].kind.FileResource? ==> fds[fd].name in names
  }

  predicate AllNamesOpened(s: State, names: set<string>) {
    forall p <- s.processes :: NamesOpened(s.processes[p].fds, names)
  }

  lemma OpenedGrows(log: seq<Event>, events: seq<Event>)
    ensures Opened(log + events) == Opened(log) + Opened(events)
  {
    forall name | name in Opened(log) + Opened(events) ensures name in Opened(log + events) {
      if name in Opened(log) {
        var e :| e in log && e.kind.FileOpen? && e.result >= 0 && e.resource == name;
        assert e in log + events;
      } else {
        var e :| e in events && e.kind.FileOpen? && e.result >= 0 && e.resource == name;
        assert e in log + events;
      }
    }
  }

  /** One system call: what it puts into the table it has just reported as opened. */
  lemma CallNamesOpened(p: Process, call: RawSyscall, memory: Memory, names: set<string>)
    requires NamesOpened(p.fds, names)
    ensures var effect := SyscallEffect(p, call, memory);
            && NamesOpened(effect.process.fds,
                 names + (if effect.event.Some? && effect.event.value.kind.FileOpen? && call.result >= 0
                          then {effect.event.value.resource} else {}))
            && (effect.event.Some? && (effect.event.value.kind.FileRead? || effect.event.value.kind.FileWrite?)
                ==> effect.event.value.resource in names)
  {
    var q := SyscallEffect(p, call, memory).process;
    if call.name.Connect? {
      forall fd <- q.fds ensures q.fds[fd].kind.FileResource? ==> fd in p.fds && q.fds[fd] == p.fds[fd] {
      }
    }
  }

  /** Apart from system calls, every table is a copy of an old one or empty. */
  lemma ForkCopiesTable(s: State, parent: Tid, child: Tid, event: PtraceEvent, ns: U64, p: int)
    requires Known(s, parent) && p in OnFork(s, parent, child, event, ns).state.processes
    ensures OnFork(s, parent, child, event, ns).state.processes[p].fds ==
            s.processes[if p == child then ProcessFor(s, parent) else p].fds
  {
  }

  lemma OthersCopyTables(s: State, c: Callback, p: int)
    requires Step(s, c).Accepted? && !c.Called? && p in Step(s, c).state.processes
    ensures var fds := Step(s, c).state.processes[p].fds;
            fds == map[] || exists q <- s.processes :: fds == s.processes[q].fds
  {
    if c.Created? && Known(s, c.tid) && !IsThread(c.event, c.cloneFlags) {
      ForkCopiesTable(s, c.tid, c.child, c.event, c.ns, p);
    }
  }

  lemma OthersTransferNothing(s: State, c: Callback)
    requires Step(s, c).Accepted? && !c.Called?
    ensures forall e <- Step(s, c).events :: !e.kind.FileRead? && !e.kind.FileWrite? && !e.kind.FileOpen?
  {
  }

  lemma StepNamesOpened(s: State, c: Callback, names: set<string>)
    requires Step(s, c).Accepted? && AllNamesOpened(s, names)
    ensures AllNamesOpened(Step(s, c).state, names + Opened(Step(s, c).events))
    ensures forall e <- Step(s, c).events :: e.kind.FileRead? || e.kind.FileWrite? ==> e.resource in names
  {
    var s1, events := Step(s, c).state, Step(s, c).events;
    if c.Called? {
      if Known(s, c.call.tid) {
        var p := Find(s, c.call.tid);
        CallNamesOpened(p, c.call, c.memory, names);
        SyscallFrame(p, c.call, c.memory);
        if events != [] {
          assert events == [events[0]] && events[0] in events;
          assert events[0].kind.FileOpen? && c.call.result >= 0 ==> events[0].resource in Opened(events);
        }
      }
    } else {
      forall p <- s1.processes ensures NamesOpened(s1.processes[p].fds, names) {
        OthersCopyTables(s, c, p);
      }
      OthersTransferNothing(s, c);
    }
  }

  lemma {:induction false} ReachableNamesOpened(setup: Setup, cs: seq<Callback>)
    requires Trace(setup, cs).Accepted?
    ensures AllNamesOpened(Trace(setup, cs).state, Opened(Trace(setup, cs).events))
  {
    if cs != [] {
      ReachableNamesOpened(setup, Front(cs));
      var s, log := Trace(setup, Front(cs)).state, Trace(setup, Front(cs)).events;
      StepNamesOpened(s, Last(cs), Opened(log));
      OpenedGrows(log, Step(s, Last(cs)).events);
    }
  }

  /** The log holds a successful open of this resource below a position. */
  predicate OpenedBefore(log: seq<Event>, k: nat, resource: string)
    requires k <= |log|
  {
    exists j | 0 <= j < k :: log[j].kind.FileOpen? && log[j].result >= 0 && log[j].resource == resource
  }

  lemma OpenedBeforeMore(log: seq<Event>, k: nat, resource: string, more: seq<Event>)
    requires k <= |log| && OpenedBefore(log, k, resource)
    ensures OpenedBefore(log + more, k, resource)
  {
    var j :| 0 <= j < k && log[j].kind.FileOpen? && log[j].result >= 0 && log[j].resource == resource;
    assert (log + more)[j] == log[j];
  }

  lemma OpenedEarlier(log: seq<Event>, events: seq<Event>, k: nat)
    requires |log| <= k < |log + events| && (log + events)[k].resource in Opened(log)
    ensures OpenedBefore(log + events, k, (log + events)[k].resource)
  {
    var r := (log + events)[k].resource;
    var o :| o in log && o.kind.FileOpen? && o.result >= 0 && o.resource == r;
    var j :| 0 <= j < |log| && log[j] == o;
    assert (log + events)[j] == o;
  }

  /**
   Through any chain of duplications, forks and threads: a read or write in the log names a
   resource that an earlier open of the log has opened with success.
   */
  lemma {:induction false} TransfersWereOpened(setup: Setup, cs: seq<Callback>, k: nat)
    requires Trace(setup, cs).Accepted? && k < |Trace(setup, cs).events|
    requires Trace(setup, cs).events[k].kind.FileRead? || Trace(setup, cs).events[k].kind.FileWrite?
    ensures OpenedBefore(Trace(setup, cs).events, k, Trace(setup, cs).events[k].resource)
  {
    if cs != [] {
      var s, log := Trace(setup, Front(cs)).state, Trace(setup, Front(cs)).events;
      var events := Step(s, Last(cs)).events;
      if k < |log| {
        TransfersWereOpened(setup, Front(cs), k);
        OpenedBeforeMore(log, k, log[k].resource, events);
      } else {
        ReachableNamesOpened(setup, Front(cs));
        StepNamesOpened(s, Last(cs), Opened(log));
        assert events[k - |log|] in events;
        OpenedEarlier(log, events, k);
      }
    }
  }
}
