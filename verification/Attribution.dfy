/**
 Which command an event belongs to. A process other than the shell keeps, for life, the
 command that the shell had when it forked the process's ancestor just below it.
 */
module Attribution {
  import opened Wrappers
  import opened Text
  import opened Events
  import opened Tracker
  import opened Runs

  /** Below the root, a child carries its parent's command. */
  predicate ChildrenFollow(s: State) {
    forall p <- s.processes ::
      var q := s.processes[p].parentPid;
      p != s.root && q != s.root && q in s.processes ==> s.processes[p].command == s.processes[q].command
  }

  lemma StepKeepsChildrenFollow(s: State, c: Callback)
    requires Valid(s) && FreshIn(s, c) && Step(s, c).Accepted? && ChildrenFollow(s)
    requires forall p <- s.processes :: s.processes[p].parentPid in s.processes || s.processes[p].parentPid == 0
    ensures ChildrenFollow(Step(s, c).state)
    ensures var s1 := Step(s, c).state;
            forall p <- s1.processes :: s1.processes[p].parentPid in s1.processes || s1.processes[p].parentPid == 0
  {
    var s1 := Step(s, c).state;
    StepKeepsKeys(s, c);
    StepKeepsValid(s, c);
    forall p <- s1.processes
      ensures var q := s1.processes[p].parentPid;
              && (q in s1.processes || q == 0)
              && (p != s.root && q != s.root && q in s1.processes ==> s1.processes[p].command == s1.processes[q].command)
    {
      StepInherits(s, c, p);
      var q := s1.processes[p].parentPid;
      if q in s1.processes {
        StepInherits(s, c, q);
      }
    }
  }

  lemma {:induction false} ReachableChildrenFollow(setup: Setup, cs: seq<Callback>)
    requires Trace(setup, cs).Accepted? && FreshPids(setup, cs)
    ensures var s := Trace(setup, cs).state;
            && ChildrenFollow(s)
            && forall p <- s.processes :: s.processes[p].parentPid in s.processes || s.processes[p].parentPid == 0
  {
    if cs != [] {
      ReachableIsValid(setup, cs);
      ReachableChildrenFollow(setup, Front(cs));
      StepKeepsChildrenFollow(Trace(setup, Front(cs)).state, Last(cs));
    }
  }

  /** A chain of parent links below the root, from the shell's child down. */
  ghost predicate Lineage(s: State, path: seq<int>) {
    && path != [] && path[0] != s.root
    && (forall i | 0 <= i < |path| :: path[i] in s.processes)
    && (forall i | 0 < i < |path| :: s.processes[path[i]].parentPid == path[i - 1])
  }

  lemma {:induction false} LineageSharesCommand(s: State, path: seq<int>)
    requires Valid(s) && ChildrenFollow(s) && Lineage(s, path)
    ensures path[|path| - 1] != s.root
    ensures s.processes[path[|path| - 1]].command == s.processes[path[0]].command
  {
    if |path| > 1 {
      var k := |path| - 1;
      LineageSharesCommand(s, path[..k]);
      assert path[..k][k - 1] == path[k - 1];
    }
  }

  lemma StepKeepsCommand(s: State, c: Callback, p: int)
    requires Valid(s) && FreshIn(s, c) && Step(s, c).Accepted? && p in s.processes && p != s.root
    ensures p in Step(s, c).state.processes
    ensures Step(s, c).state.processes[p].command == s.processes[p].command
  {
    StepKeepsKeys(s, c);
    StepInherits(s, c, p);
  }

  /** A process other than the root never changes its command. */
  lemma {:induction false} CommandIsForLife(setup: Setup, a: seq<Callback>, b: seq<Callback>, p: int)
    requires Trace(setup, a + b).Accepted? && FreshPids(setup, a + b)
    requires Trace(setup, a).Accepted? && p in Trace(setup, a).state.processes && p != setup.pid
    ensures p in Trace(setup, a + b).state.processes
    ensures Trace(setup, a + b).state.processes[p].command == Trace(setup, a).state.processes[p].command
    decreases |b|
  {
    if b == [] {
      assert a + b == a;
    } else {
      assert Front(a + b) == a + Front(b);
      ReachableIsValid(setup, a + b);
      ReachableIsValid(setup, a + Front(b));
      CommandIsForLife(setup, a, Front(b), p);
      StepKeepsCommand(Trace(setup, a + Front(b)).state, Last(a + b), p);
    }
  }

  /** The event's process is known, and below the root it has the event's command. */
  predicate Carries(s: State, e: Event) {
    && e.pid in s.processes
    && (e.pid != s.root ==>
          e.command == s.processes[e.pid].command && !e.kind.CommandStart? && !e.kind.CommandEnd?)
  }

  lemma StepKeepsCarried(s: State, c: Callback, e: Event)
    requires Valid(s) && FreshIn(s, c) && Step(s, c).Accepted? && Carries(s, e)
    ensures Carries(Step(s, c).state, e)
  {
    StepKeepsKeys(s, c);
    StepInherits(s, c, e.pid);
  }

  lemma StepCarries(s: State, c: Callback, e: Event)
    requires Valid(s) && FreshIn(s, c) && Step(s, c).Accepted? && e in Step(s, c).events
    ensures Carries(Step(s, c).state, e)
  {
    StepReports(s, c, e);
  }

  /** Every event of a process other than the root carries the command that the process has in the end. */
  lemma {:induction false} EventsCarryCommand(setup: Setup, cs: seq<Callback>, e: Event)
    requires Trace(setup, cs).Accepted? && FreshPids(setup, cs) && e in Trace(setup, cs).events
    ensures e.pid in Trace(setup, cs).state.processes
    ensures e.pid != setup.pid ==> e.command == Trace(setup, cs).state.processes[e.pid].command
    ensures e.pid != setup.pid ==> !e.kind.CommandStart? && !e.kind.CommandEnd?
  {
    if cs != [] {
      ReachableIsValid(setup, cs);
      ReachableIsValid(setup, Front(cs));
      var s, c := Trace(setup, Front(cs)).state, Last(cs);
      if e in Trace(setup, Front(cs)).events {
        EventsCarryCommand(setup, Front(cs), e);
        StepKeepsCarried(s, c, e);
      } else {
        StepCarries(s, c, e);
      }
    }
  }

  /** A forked child has its parent's command. */
  lemma ForkedCommand(s: State, fork: Callback)
    requires Valid(s) && FreshIn(s, fork) && fork.Created? && !IsThread(fork.event, fork.cloneFlags)
    requires Known(s, fork.tid)
    ensures fork.child in Step(s, fork).state.processes
    ensures Step(s, fork).state.processes[fork.child].command == Find(s, fork.tid).command
    ensures fork.child != s.root
  {
    StepInherits(s, fork, fork.child);
  }

  lemma {:induction false} ForkInRun(setup: Setup, before: seq<Callback>, fork: Callback)
    requires Trace(setup, before + [fork]).Accepted? && FreshPids(setup, before + [fork])
    requires fork.Created? && !IsThread(fork.event, fork.cloneFlags)
    requires Trace(setup, before).Accepted? && Known(Trace(setup, before).state, fork.tid)
    ensures fork.child in Trace(setup, before + [fork]).state.processes && fork.child != setup.pid
    ensures Trace(setup, before + [fork]).state.processes[fork.child].command
            == Find(Trace(setup, before).state, fork.tid).command
  {
    assert Front(before + [fork]) == before;
    ReachableIsValid(setup, before + [fork]);
    ForkedCommand(Trace(setup, before).state, fork);
  }

  lemma {:induction false} AllEventsCarryCommand(setup: Setup, cs: seq<Callback>, p: int)
    requires Trace(setup, cs).Accepted? && FreshPids(setup, cs)
    requires p in Trace(setup, cs).state.processes && p != setup.pid
    ensures forall e <- Trace(setup, cs).events ::
              e.pid == p ==> e.command == Trace(setup, cs).state.processes[p].command
  {
    forall e <- Trace(setup, cs).events | e.pid == p
      ensures e.command == Trace(setup, cs).state.processes[p].command
    {
      EventsCarryCommand(setup, cs, e);
    }
  }

  /**
   The shell forks a process; whatever happens afterwards, the whole subtree of that process
   and every event of it carry the command that the shell had at the fork.
   */
  lemma {:induction false} SubtreeKeepsItsCommand(
    setup: Setup, before: seq<Callback>, fork: Callback, after: seq<Callback>, path: seq<int>)
    requires Trace(setup, before + [fork] + after).Accepted? && FreshPids(setup, before + [fork] + after)
    requires Trace(setup, before).Accepted?
    requires fork.Created? && !IsThread(fork.event, fork.cloneFlags)
    requires Known(Trace(setup, before).state, fork.tid)
    requires ProcessFor(Trace(setup, before).state, fork.tid) == setup.pid
    requires Lineage(Trace(setup, before + [fork] + after).state, path) && path[0] == fork.child
    ensures var id := Find(Trace(setup, before).state, fork.tid).command;
            var descendant := path[|path| - 1];
            && Trace(setup, before + [fork] + after).state.processes[descendant].command == id
            && forall e <- Trace(setup, before + [fork] + after).events :: e.pid == descendant ==> e.command == id
  {
    var run := before + [fork] + after;
    PrefixOfRun(setup, before + [fork], after);
    ForkInRun(setup, before, fork);
    ReachableIsValid(setup, run);
    ReachableChildrenFollow(setup, run);
    CommandIsForLife(setup, before + [fork], after, fork.child);
    LineageSharesCommand(Trace(setup, run).state, path);
    AllEventsCarryCommand(setup, run, path[|path| - 1]);
  }
}
