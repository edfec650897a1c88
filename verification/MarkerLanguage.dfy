/** Which marker sequences the tracker accepts, and how the log brackets the commands. */
module MarkerLanguage {
  import opened Wrappers
  import opened Text
  import opened Events
  import opened Tracker
  import opened Runs

  // ---- The accepted language ----

  /** The prefixes of (Arm i, Start i, End i)*. */
  ghost predicate InLanguage(markers: seq<CommandMarker>) {
    forall k | 0 <= k < |markers| :: InPlace(markers, k)
  }

  /** The kinds come round; a marker that is not an arm repeats the id before it. */
  predicate InPlace(markers: seq<CommandMarker>, k: nat)
    requires k < |markers|
  {
    markers[k].kind == KindAt(k) && (k % 3 != 0 ==> markers[k].id == markers[k - 1].id)
  }

  function KindAt(k: nat): MarkerType {
    if k % 3 == 0 then Arm else if k % 3 == 1 then Start else End
  }

  /** The state that is reached when refused callbacks are skipped. */
  function Follow(setup: Setup, cs: seq<Callback>): State {
    if cs == [] then AddInitialProcess(setup.pid, setup.cwd, setup.rootCommand, setup.ns).state
    else
      var s := Follow(setup, Front(cs));
      if Step(s, Last(cs)).Accepted? then Step(s, Last(cs)).state else s
  }

  predicate ReachesRoot(s: State, c: Callback) {
    c.Marked? && Known(s, c.tid) && Find(s, c.tid).pid == s.root
  }

  /** The markers that the root's threads deliver. */
  function Delivered(setup: Setup, cs: seq<Callback>): seq<CommandMarker> {
    if cs == [] then []
    else
      Delivered(setup, Front(cs)) +
      (if ReachesRoot(Follow(setup, Front(cs)), Last(cs)) then [Last(cs).marker] else [])
  }

  predicate RootExits(s: State, c: Callback) {
    c.Exited? && c.tid == s.root && ProcessFor(s, c.tid) == s.root
  }

  predicate RootStays(setup: Setup, cs: seq<Callback>) {
    cs != [] ==> RootStays(setup, Front(cs)) && !RootExits(Follow(setup, Front(cs)), Last(cs))
  }

  lemma {:induction false} FollowIsTrace(setup: Setup, cs: seq<Callback>)
    requires Trace(setup, cs).Accepted?
    ensures Follow(setup, cs) == Trace(setup, cs).state
  {
    if cs != [] {
      FollowIsTrace(setup, Front(cs));
    }
  }

  /** The active command that the markers delivered so far call for. */
  function ActiveAfter(markers: seq<CommandMarker>): Option<(U64, bool)> {
    var n := |markers|;
    if n % 3 == 0 then None else Some((markers[n - 1].id, n % 3 == 2))
  }

  predicate ActiveIs(s: State, a: Option<(U64, bool)>) {
    match a
    case None => s.active == None
    case Some((id, started)) => s.active.Some? && s.active.value.id == id && s.active.value.started == started
  }

  lemma LanguageExtends(markers: seq<CommandMarker>, m: CommandMarker)
    ensures InLanguage(markers + [m]) <==>
            && InLanguage(markers)
            && m.kind == KindAt(|markers|)
            && (|markers| % 3 != 0 ==> m.id == markers[|markers| - 1].id)
  {
    var all, n := markers + [m], |markers|;
    forall k | 0 <= k < n ensures InPlace(all, k) == InPlace(markers, k) {
      assert all[k] == markers[k];
    }
    assert InLanguage(all) ==> InPlace(all, n);
  }

  /** One marker against the state: it is accepted exactly if it extends the language. */
  lemma MarkerStep(s: State, c: Callback, markers: seq<CommandMarker>)
    requires Valid(s) && ReachesRoot(s, c)
    requires InLanguage(markers) && ActiveIs(s, ActiveAfter(markers))
    ensures Step(s, c).Accepted? <==> InLanguage(markers + [c.marker])
    ensures Step(s, c).Accepted? ==> ActiveIs(Step(s, c).state, ActiveAfter(markers + [c.marker]))
  {
    LanguageExtends(markers, c.marker);
  }

  lemma OtherStep(s: State, c: Callback)
    requires Valid(s) && !ReachesRoot(s, c) && !RootExits(s, c)
    ensures Step(s, c).Accepted?
    ensures Step(s, c).state.active.None? <==> s.active.None?
    ensures s.active.Some? ==>
              && Step(s, c).state.active.value.id == s.active.value.id
              && Step(s, c).state.active.value.started == s.active.value.started
  {
  }

  /**
   From a fresh session and until the shell exits, a run is accepted exactly if the markers
   of the shell form a prefix of (Arm i, Start i, End i)*, whatever comes in between.
   */
  lemma {:induction false} AcceptedExactly(setup: Setup, cs: seq<Callback>)
    requires setup.rootCommand.None? && RootStays(setup, cs) && FreshPids(setup, cs)
    ensures Trace(setup, cs).Accepted? <==> InLanguage(Delivered(setup, cs))
    ensures Trace(setup, cs).Accepted? ==> ActiveIs(Trace(setup, cs).state, ActiveAfter(Delivered(setup, cs)))
  {
    if cs != [] {
      AcceptedExactly(setup, Front(cs));
      var before, c := Delivered(setup, Front(cs)), Last(cs);
      if Trace(setup, Front(cs)).Accepted? {
        var s := Trace(setup, Front(cs)).state;
        FollowIsTrace(setup, Front(cs));
        ReachableIsValid(setup, Front(cs));
        if ReachesRoot(s, c) {
          MarkerStep(s, c, before);
        } else {
          OtherStep(s, c);
          assert before + [] == before;
        }
      } else if InLanguage(Delivered(setup, cs)) {
        if Delivered(setup, cs) != before {
          LanguageExtends(before, c.marker);
        }
      }
    }
  }

  // ---- The brackets in the log ----

  function CommandEventOf(e: Event): seq<Event> {
    if e.kind.CommandStart? || e.kind.CommandEnd? then [e] else []
  }

  function CommandEvents(log: seq<Event>): seq<Event> {
    if log == [] then [] else CommandEvents(Front(log)) + CommandEventOf(Last(log))
  }

  /** The prefixes of (start i, end i)*. */
  ghost predicate Bracketed(events: seq<Event>) {
    forall k | 0 <= k < |events| :: Brackets(events, k)
  }

  predicate Brackets(events: seq<Event>, k: nat)
    requires k < |events|
  {
    && events[k].kind == (if k % 2 == 0 then CommandStart else CommandEnd)
    && events[k].command.Some?
    && (k % 2 == 1 ==> events[k].command == events[k - 1].command)
  }

  function Running(s: State): Option<U64> {
    if s.active.Some? && s.active.value.started then Some(s.active.value.id) else None
  }

  lemma {:induction false} CommandEventsConcat(a: seq<Event>, b: seq<Event>)
    ensures CommandEvents(a + b) == CommandEvents(a) + CommandEvents(b)
    decreases |b|
  {
    if b == [] {
      assert a + b == a;
    } else {
      assert Front(a + b) == a + Front(b) && Last(a + b) == Last(b);
      CommandEventsConcat(a, Front(b));
    }
  }

  lemma CommandEventsOfOne(e: Event)
    ensures CommandEvents([e]) == CommandEventOf(e)
  {
    assert Front([e]) == [] && Last([e]) == e;
  }

  /** At most one event, and it neither starts nor ends a command. */
  predicate Uncommanding(events: seq<Event>) {
    |events| <= 1 && forall e <- events :: !e.kind.CommandStart? && !e.kind.CommandEnd?
  }

  lemma {:induction false} NoCommandEvents(events: seq<Event>)
    requires Uncommanding(events)
    ensures CommandEvents(events) == []
  {
    if events != [] {
      assert events == [events[0]];
      CommandEventsOfOne(events[0]);
    }
  }

  /** The command that is left open by a log with these command events. */
  function LeftOpen(commands: seq<Event>): Option<U64> {
    if |commands| % 2 == 1 then commands[|commands| - 1].command else None
  }

  /** At most one command event, and it opens or closes the right command. */
  ghost predicate BracketStep(open: Option<U64>, commands: seq<Event>, open': Option<U64>) {
    || (commands == [] && open' == open)
    || (&& |commands| == 1 && commands[0].command.Some?
        && ((commands[0].kind.CommandStart? && open == None && open' == commands[0].command)
            || (commands[0].kind.CommandEnd? && open == commands[0].command && open' == None)))
  }

  lemma OpenIfOdd(commands: seq<Event>)
    requires Bracketed(commands)
    ensures LeftOpen(commands).Some? <==> |commands| % 2 == 1
  {
    if commands != [] {
      assert Brackets(commands, |commands| - 1);
    }
  }

  lemma BracketsExtend(commands: seq<Event>, added: seq<Event>, open: Option<U64>)
    requires Bracketed(commands) && BracketStep(LeftOpen(commands), added, open)
    ensures Bracketed(commands + added) && LeftOpen(commands + added) == open
  {
    var all, n := commands + added, |commands|;
    OpenIfOdd(commands);
    if added == [] {
      assert all == commands;
    } else {
      forall k | 0 <= k < n ensures Brackets(all, k) {
        assert Brackets(commands, k) && all[k] == commands[k];
      }
      assert all[n] == added[0];
    }
  }

  lemma MarkerBrackets(s: State, c: Callback)
    requires Valid(s) && c.Marked? && Step(s, c).Accepted?
    ensures BracketStep(Running(s), CommandEvents(Step(s, c).events), Running(Step(s, c).state))
  {
    var events := Step(s, c).events;
    if events != [] {
      OnlyCommandEvent(events);
    }
  }

  lemma {:induction false} OnlyCommandEvent(events: seq<Event>)
    requires |events| == 1 && (events[0].kind.CommandStart? || events[0].kind.CommandEnd?)
    ensures |CommandEvents(events)| == 1 && CommandEvents(events)[0] == events[0]
  {
    CommandEventsOfOne(events[0]);
    assert events == [events[0]];
  }

  /** The leader's exit first; for the shell, the end of the running command behind it. */
  lemma ExitEvents(s: State, c: Callback)
    requires Valid(s) && c.Exited?
    ensures var events, s1 := Step(s, c).events, Step(s, c).state;
            && |events| <= 2
            && (|events| >= 1 ==> events[0].kind.ProcessExit?)
            && (|events| == 2 ==> events[1].kind.CommandEnd? && events[1].command == Running(s)
                                  && Running(s).Some? && Running(s1) == None)
            && (|events| < 2 ==> Running(s1) == Running(s))
    ensures RootExits(s, c) ==> Running(Step(s, c).state) == None
  {
  }

  lemma CommandEventsOfTwo(a: Event, b: Event)
    ensures CommandEvents([a] + [b]) == CommandEventOf(a) + CommandEventOf(b)
  {
    CommandEventsConcat([a], [b]);
    CommandEventsOfOne(a);
    CommandEventsOfOne(b);
  }

  lemma {:induction false} EndAfterExit(events: seq<Event>)
    requires |events| == 2 && events[0].kind.ProcessExit? && events[1].kind.CommandEnd?
    ensures |CommandEvents(events)| == 1 && CommandEvents(events)[0] == events[1]
  {
    CommandEventsOfTwo(events[0], events[1]);
    assert events == [events[0]] + [events[1]];
  }

  lemma ExitBrackets(s: State, c: Callback)
    requires Valid(s) && c.Exited?
    ensures BracketStep(Running(s), CommandEvents(Step(s, c).events), Running(Step(s, c).state))
    ensures RootExits(s, c) ==> Running(Step(s, c).state) == None
  {
    ExitEvents(s, c);
    if |Step(s, c).events| == 2 {
      EndAfterExit(Step(s, c).events);
    } else {
      NoCommandEvents(Step(s, c).events);
    }
  }

  lemma QuietCallEvents(s: State, call: RawSyscall, memory: Memory)
    requires Valid(s)
    ensures Uncommanding(OnSyscall(s, call, memory).events)
    ensures OnSyscall(s, call, memory).state.active == s.active
  {
    if Known(s, call.tid) {
      SyscallFrame(Find(s, call.tid), call, memory);
    }
  }

  lemma QuietEvents(s: State, c: Callback)
    requires Valid(s) && FreshIn(s, c) && !c.Marked? && !c.Exited?
    ensures Uncommanding(Step(s, c).events)
    ensures Running(Step(s, c).state) == Running(s)
  {
    if c.Called? {
      QuietCallEvents(s, c.call, c.memory);
    }
  }

  lemma StepBrackets(s: State, c: Callback)
    requires Valid(s) && FreshIn(s, c) && Step(s, c).Accepted?
    ensures BracketStep(Running(s), CommandEvents(Step(s, c).events), Running(Step(s, c).state))
    ensures RootExits(s, c) ==> Running(Step(s, c).state) == None
  {
    if c.Marked? {
      MarkerBrackets(s, c);
    } else if c.Exited? {
      ExitBrackets(s, c);
    } else {
      QuietEvents(s, c);
      NoCommandEvents(Step(s, c).events);
    }
  }

  lemma {:induction false} StepKeepsBrackets(s: State, log: seq<Event>, c: Callback)
    requires Valid(s) && FreshIn(s, c) && Step(s, c).Accepted?
    requires Bracketed(CommandEvents(log)) && LeftOpen(CommandEvents(log)) == Running(s)
    ensures Bracketed(CommandEvents(log + Step(s, c).events))
    ensures LeftOpen(CommandEvents(log + Step(s, c).events)) == Running(Step(s, c).state)
  {
    StepBrackets(s, c);
    CommandEventsConcat(log, Step(s, c).events);
    BracketsExtend(CommandEvents(log), CommandEvents(Step(s, c).events), Running(Step(s, c).state));
  }

  /**
   In every run, in either mode and across the exits of the shell, the command events are a
   prefix of (start i, end i)*; one is left open exactly while a started command is active.
   */
  lemma {:induction false} LogIsBracketed(setup: Setup, cs: seq<Callback>)
    requires Trace(setup, cs).Accepted? && FreshPids(setup, cs)
    ensures Bracketed(CommandEvents(Trace(setup, cs).events))
    ensures LeftOpen(CommandEvents(Trace(setup, cs).events)) == Running(Trace(setup, cs).state)
  {
    if cs == [] {
      var log := Trace(setup, cs).events;
      if log != [] {
        CommandEventsOfOne(log[0]);
        assert log == [log[0]];
      }
    } else {
      LogIsBracketed(setup, Front(cs));
      ReachableIsValid(setup, Front(cs));
      StepKeepsBrackets(Trace(setup, Front(cs)).state, Trace(setup, Front(cs)).events, Last(cs));
    }
  }

  /** Right after the shell's exit every command has its end in the log. */
  lemma {:induction false} NoneOpenAtExit(setup: Setup, cs: seq<Callback>)
    requires Trace(setup, cs).Accepted? && FreshPids(setup, cs)
    requires cs != [] && RootExits(Trace(setup, Front(cs)).state, Last(cs))
    ensures |CommandEvents(Trace(setup, cs).events)| % 2 == 0
  {
    LogIsBracketed(setup, cs);
    OpenIfOdd(CommandEvents(Trace(setup, cs).events));
    ReachableIsValid(setup, cs);
    StepBrackets(Trace(setup, Front(cs)).state, Last(cs));
  }

  lemma RootExitEndsCommand(s: State, c: Callback)
    requires Valid(s) && c.Exited? && c.tid == s.root
    ensures Step(s, c).state.active == None
  {
    assert ProcessFor(s, s.root) == s.root;
  }

  lemma NoCommandWithoutRoot(s: State, c: Callback)
    requires Valid(s) && FreshIn(s, c) && Step(s, c).Accepted?
    requires s.active == None && ProcessFor(s, Actor(c)) != s.root
    ensures Step(s, c).state.active == None
  {
  }

  /** From the shell's exit on, whatever else is reported, no command is active. */
  lemma {:induction false} NoneActiveAfterExit(setup: Setup, cs: seq<Callback>)
    requires Trace(setup, cs).Accepted? && FreshPids(setup, cs) && NoAfterExit(setup, cs)
    requires setup.pid in Gone(setup, cs)
    ensures Trace(setup, cs).state.active == None
  {
    ReachableIsValid(setup, Front(cs));
    var s := Trace(setup, Front(cs)).state;
    if setup.pid in Gone(setup, Front(cs)) {
      NoneActiveAfterExit(setup, Front(cs));
      NoCommandWithoutRoot(s, Last(cs));
    } else {
      RootExitEndsCommand(s, Last(cs));
    }
  }

  /** Hence from then on every command has its end in the log. */
  lemma {:induction false} NoneOpenAfterExit(setup: Setup, cs: seq<Callback>)
    requires Trace(setup, cs).Accepted? && FreshPids(setup, cs) && NoAfterExit(setup, cs)
    requires setup.pid in Gone(setup, cs)
    ensures Trace(setup, cs).state.active == None
    ensures |CommandEvents(Trace(setup, cs).events)| % 2 == 0
  {
    NoneActiveAfterExit(setup, cs);
    LogIsBracketed(setup, cs);
    OpenIfOdd(CommandEvents(Trace(setup, cs).events));
  }

  /** The event carries the command that the log before it leaves open. */
  predicate InOpenCommand(log: seq<Event>, k: nat)
    requires k < |log|
  {
    log[k].command == LeftOpen(CommandEvents(log[..k]))
  }

  lemma StaysInOpenCommand(log: seq<Event>, events: seq<Event>, k: nat)
    requires k < |log|
    ensures InOpenCommand(log + events, k) == InOpenCommand(log, k)
  {
    assert (log + events)[..k] == log[..k];
  }

  lemma TakeBehind(log: seq<Event>, events: seq<Event>, j: nat)
    requires j <= |events|
    ensures (log + events)[..|log| + j] == log + events[..j]
  {
  }

  lemma {:induction false} OpenBeforeEvent(log: seq<Event>, events: seq<Event>, j: nat)
    requires j < |events| && j <= 1
    requires j == 1 ==> !events[0].kind.CommandStart? && !events[0].kind.CommandEnd?
    ensures CommandEvents((log + events)[..|log| + j]) == CommandEvents(log)
  {
    TakeBehind(log, events, j);
    NothingLogged(log, events[..j]);
  }

  lemma {:induction false} EntersOpenCommand(s: State, c: Callback, log: seq<Event>, j: nat)
    requires Valid(s) && FreshIn(s, c) && Step(s, c).Accepted?
    requires LeftOpen(CommandEvents(log)) == Running(s)
    requires j < |Step(s, c).events| && OfShell(s.root, Step(s, c).events[j])
    ensures InOpenCommand(log + Step(s, c).events, |log| + j)
  {
    StepFollowsBrackets(s, c, j);
    OpenBeforeEvent(log, Step(s, c).events, j);
  }

  predicate OfShell(root: int, e: Event) {
    e.pid == root && !e.kind.ProcessFork? && !e.kind.CommandStart?
  }

  ghost predicate ShellInOpenCommand(root: int, log: seq<Event>) {
    forall k | 0 <= k < |log| && OfShell(root, log[k]) :: InOpenCommand(log, k)
  }

  lemma MoreInOpenCommand(root: int, log: seq<Event>, events: seq<Event>)
    requires ShellInOpenCommand(root, log)
    requires forall j | 0 <= j < |events| && OfShell(root, events[j]) :: InOpenCommand(log + events, |log| + j)
    ensures ShellInOpenCommand(root, log + events)
  {
    forall k | 0 <= k < |log + events| && OfShell(root, (log + events)[k])
      ensures InOpenCommand(log + events, k)
    {
      if k < |log| {
        StaysInOpenCommand(log, events, k);
      } else {
        assert OfShell(root, events[k - |log|]);
      }
    }
  }

  lemma {:induction false} StepInOpenCommand(s: State, c: Callback, log: seq<Event>)
    requires Valid(s) && FreshIn(s, c) && Step(s, c).Accepted?
    requires LeftOpen(CommandEvents(log)) == Running(s) && ShellInOpenCommand(s.root, log)
    ensures ShellInOpenCommand(s.root, log + Step(s, c).events)
  {
    var events := Step(s, c).events;
    forall j | 0 <= j < |events| && OfShell(s.root, events[j]) ensures InOpenCommand(log + events, |log| + j) {
      EntersOpenCommand(s, c, log, j);
    }
    MoreInOpenCommand(s.root, log, events);
  }

  /**
   An event of the shell carries exactly the command that is open in the log when it is
   written; only its forks also carry a command that is merely armed.
   */
  lemma {:induction false} ShellFollowsBrackets(setup: Setup, cs: seq<Callback>)
    requires Trace(setup, cs).Accepted? && FreshPids(setup, cs)
    ensures ShellInOpenCommand(setup.pid, Trace(setup, cs).events)
  {
    if cs != [] {
      ReachableIsValid(setup, Front(cs));
      ShellFollowsBrackets(setup, Front(cs));
      LogIsBracketed(setup, Front(cs));
      StepInOpenCommand(Trace(setup, Front(cs)).state, Last(cs), Trace(setup, Front(cs)).events);
    }
  }

  lemma StepFollowsBrackets(s: State, c: Callback, j: nat)
    requires Valid(s) && FreshIn(s, c) && Step(s, c).Accepted?
    requires j < |Step(s, c).events| && Step(s, c).events[j].pid == s.root
    requires !Step(s, c).events[j].kind.ProcessFork? && !Step(s, c).events[j].kind.CommandStart?
    ensures Step(s, c).events[j].command == Running(s)
    ensures j <= 1
    ensures j == 1 ==> !Step(s, c).events[0].kind.CommandStart? && !Step(s, c).events[0].kind.CommandEnd?
  {
    if c.Called? && Known(s, c.call.tid) {
      SyscallFrame(Find(s, c.call.tid), c.call, c.memory);
    }
  }

  // ---- Every accepted marker is in the log, once and in order ----

  /** What a command event says, its time and its process aside. */
  datatype Bracket = Bracket(
    kind: EventType, command: Option<U64>, text: string, metadata: map<string, string>, result: int, errno: int)

  function BracketOf(e: Event): Bracket {
    Bracket(e.kind, e.command, e.resource, e.metadata, e.result, e.errno)
  }

  function Describe(events: seq<Event>): seq<Bracket> {
    if events == [] then [] else Describe(Front(events)) + [BracketOf(Last(events))]
  }

  function AnnounceOne(m: CommandMarker): seq<Bracket> {
    match m.kind
    case Arm => []
    case Start => [Bracket(CommandStart, Some(m.id), m.text, StartMetadata(m), 0, 0)]
    case End => [Bracket(CommandEnd, Some(m.id), "", EndMetadata(m), m.exitCode, 0)]
  }

  function Announce(markers: seq<CommandMarker>): seq<Bracket> {
    if markers == [] then [] else Announce(Front(markers)) + AnnounceOne(Last(markers))
  }

  lemma {:induction false} DescribeOneMore(events: seq<Event>, e: Event)
    ensures Describe(events + [e]) == Describe(events) + [BracketOf(e)]
  {
    assert Front(events + [e]) == events;
  }

  lemma {:induction false} AnnounceOneMore(markers: seq<CommandMarker>, m: CommandMarker)
    ensures Announce(markers + [m]) == Announce(markers) + AnnounceOne(m)
  {
    assert Front(markers + [m]) == markers;
  }

  /** An accepted marker of the shell leads to the event that announces it, and to nothing else. */
  lemma MarkerEvent(s: State, c: Callback)
    requires Valid(s) && ReachesRoot(s, c) && Step(s, c).Accepted?
    ensures c.marker.kind.Arm? ==> Step(s, c).events == []
    ensures !c.marker.kind.Arm? ==>
              && |Step(s, c).events| == 1
              && (Step(s, c).events[0].kind.CommandStart? || Step(s, c).events[0].kind.CommandEnd?)
              && AnnounceOne(c.marker) == [BracketOf(Step(s, c).events[0])]
  {
  }

  lemma {:induction false} EventLogged(log: seq<Event>, e: Event)
    requires e.kind.CommandStart? || e.kind.CommandEnd?
    ensures Describe(CommandEvents(log + [e])) == Describe(CommandEvents(log)) + [BracketOf(e)]
  {
    assert Front(log + [e]) == log && Last(log + [e]) == e;
    DescribeOneMore(CommandEvents(log), e);
  }

  lemma {:induction false} MarkerIsLogged(s: State, log: seq<Event>, c: Callback)
    requires Valid(s) && ReachesRoot(s, c) && Step(s, c).Accepted?
    ensures Describe(CommandEvents(log + Step(s, c).events)) ==
            Describe(CommandEvents(log)) + AnnounceOne(c.marker)
  {
    var events := Step(s, c).events;
    MarkerEvent(s, c);
    if c.marker.kind.Arm? {
      assert log + [] == log;
      assert Describe(CommandEvents(log)) + [] == Describe(CommandEvents(log));
    } else {
      assert events == [events[0]];
      EventLogged(log, events[0]);
    }
  }

  lemma OtherEvents(s: State, c: Callback)
    requires Valid(s) && FreshIn(s, c) && !ReachesRoot(s, c) && !RootExits(s, c)
    ensures Uncommanding(Step(s, c).events)
  {
    if c.Called? {
      QuietCallEvents(s, c.call, c.memory);
    }
  }

  lemma {:induction false} NothingLogged(log: seq<Event>, events: seq<Event>)
    requires Uncommanding(events)
    ensures CommandEvents(log + events) == CommandEvents(log)
  {
    CommandEventsConcat(log, events);
    NoCommandEvents(events);
    assert CommandEvents(log) + [] == CommandEvents(log);
  }

  /**
   While the shell lives, the command events of an accepted session are exactly its start and
   end markers: the same ids, texts, directories and exit codes, in the same order.
   */
  lemma {:induction false} MarkersAreLogged(setup: Setup, cs: seq<Callback>)
    requires setup.rootCommand.None? && RootStays(setup, cs) && FreshPids(setup, cs)
    requires Trace(setup, cs).Accepted?
    ensures Describe(CommandEvents(Trace(setup, cs).events)) == Announce(Delivered(setup, cs))
  {
    if cs != [] {
      MarkersAreLogged(setup, Front(cs));
      ReachableIsValid(setup, Front(cs));
      FollowIsTrace(setup, Front(cs));
      var s, log, c := Trace(setup, Front(cs)).state, Trace(setup, Front(cs)).events, Last(cs);
      if ReachesRoot(s, c) {
        MarkerIsLogged(s, log, c);
        AnnounceOneMore(Delivered(setup, Front(cs)), c.marker);
      } else {
        OtherEvents(s, c);
        NothingLogged(log, Step(s, c).events);
        assert Delivered(setup, Front(cs)) + [] == Delivered(setup, Front(cs));
      }
    }
  }
}
