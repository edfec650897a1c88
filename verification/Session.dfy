/**
 A recorded shell session from end to end: what the two bash functions print goes through the
 shell's writes, the collector and the protocol parser into the execution state.
 */
module Session {
  import opened Wrappers
  import opened Text
  import opened Events
  import opened Tracker
  import opened Runs
  import opened Collecting
  import Backdating
  import Bash
  import Capsule
  import CommandTable
  import MarkerLanguage
  import Protocol
  import Recording
  import Showing

  // ---- What the shell prints ----

  /** Values that bash variables, the history and the environment can supply, within the limits. */
  predicate Printable(a: Bash.Action) {
    match a
    case Prompt(_, pwd) => Protocol.NulFree(pwd) && |pwd| <= Protocol.MAXIMUM_FIELD_BYTES
    case Trap(pwd, prefix, text) =>
      && Protocol.NulFree(pwd) && |pwd| <= Protocol.MAXIMUM_FIELD_BYTES
      && Protocol.NulFree(text) && Protocol.NulFree(prefix) && Protocol.HISTORY_MARK !in prefix
      && |Bash.HistoryLine(prefix, text)| <= Protocol.MAXIMUM_FIELD_BYTES
  }

  lemma {:induction false} SessionIsSendable(actions: seq<Bash.Action>)
    requires |actions| < 0x7FFF_FFFF_FFFF_FFFF && forall a <- actions :: Printable(a)
    ensures forall s <- Bash.Session(actions).1 :: Bash.Sendable(s) && Bash.Fits(s)
    ensures Bash.Session(actions).0.atPrompt ==> Bash.Session(actions).0.active > 0
  {
    if actions != [] {
      var before, a := actions[..|actions| - 1], actions[|actions| - 1];
      assert forall b <- before :: b in actions;
      SessionIsSendable(before);
      assert Printable(a);
      forall s <- Bash.React(Bash.Session(before).0, a).1 ensures Bash.Sendable(s) && Bash.Fits(s) {
      }
    }
  }

  predicate NumberedAt(markers: seq<CommandMarker>, k: nat)
    requires k < |markers|
  {
    markers[k].id == k / 3 + 1
  }

  /** The shell counts its commands from one. */
  ghost predicate Numbered(markers: seq<CommandMarker>) {
    forall k | 0 <= k < |markers| :: NumberedAt(markers, k)
  }

  lemma NumberedOneMore(markers: seq<CommandMarker>, m: CommandMarker)
    requires Numbered(markers) && m.id == |markers| / 3 + 1
    ensures Numbered(markers + [m])
  {
    forall k | 0 <= k < |markers + [m]| ensures NumberedAt(markers + [m], k) {
      assert k < |markers| ==> NumberedAt(markers, k);
    }
  }

  lemma {:induction false} NumberedReaction(markers: seq<CommandMarker>, actions: seq<Bash.Action>, shell: Bash.Shell, a: Bash.Action)
    requires Numbered(markers) && Bash.Paced(actions, shell, markers)
    requires shell.active < 0x8000_0000_0000_0000 && shell.sequence + 1 < 0x8000_0000_0000_0000
    requires a.Prompt? && Bash.Prompts(actions) > 0 ==> Bash.TrapsSincePrompt(actions) >= 2
    ensures Numbered(markers + Bash.MarkersSent(Bash.React(shell, a).1))
  {
    var sent := Bash.React(shell, a).1;
    if sent == [] {
      assert markers + [] == markers;
    } else if |sent| == 1 {
      assert sent == [sent[0]];
      Bash.MarkersOfOne(sent[0]);
      NumberedOneMore(markers, sent[0].marker);
    } else {
      assert sent == [sent[0], sent[1]];
      Bash.MarkersOfTwo(sent[0], sent[1]);
      NumberedOneMore(markers, sent[0].marker);
      NumberedOneMore(markers + [sent[0].marker], sent[1].marker);
      assert markers + [sent[0].marker] + [sent[1].marker] == markers + [sent[0].marker, sent[1].marker];
    }
  }

  /** The k-th triple of markers bears the number k. */
  lemma {:induction false} SessionIsNumbered(actions: seq<Bash.Action>)
    requires |actions| < 0x7FFF_FFFF_FFFF_FFFF && Bash.WellPaced(actions)
    ensures Numbered(Bash.MarkersSent(Bash.Session(actions).1))
  {
    if actions != [] {
      var before, a := actions[..|actions| - 1], actions[|actions| - 1];
      assert actions == before + [a];
      Bash.WellPacedOneMore(before, a);
      SessionIsNumbered(before);
      Bash.AcceptableExactly(before);
      var (shell, sent) := Bash.Session(before);
      NumberedReaction(Bash.MarkersSent(sent), before, shell, a);
      Bash.MarkersSentMore(sent, Bash.React(shell, a).1);
    }
  }

  // ---- What the tracker accepts ----

  predicate FromShell(setup: Setup, cs: seq<Callback>) {
    forall c <- cs :: c.Marked? ==> c.tid == setup.pid
  }

  predicate ShellLives(setup: Setup, cs: seq<Callback>) {
    forall c <- cs :: c.Exited? ==> c.tid != setup.pid
  }

  lemma {:induction false} FollowKeepsRoot(setup: Setup, cs: seq<Callback>)
    ensures MarkerLanguage.Follow(setup, cs).root == setup.pid
  {
    if cs != [] {
      FollowKeepsRoot(setup, Front(cs));
      if Step(MarkerLanguage.Follow(setup, Front(cs)), Last(cs)).Accepted? {
        StepKeepsKeys(MarkerLanguage.Follow(setup, Front(cs)), Last(cs));
      }
    }
  }

  lemma {:induction false} LivingShellStays(setup: Setup, cs: seq<Callback>)
    requires ShellLives(setup, cs)
    ensures MarkerLanguage.RootStays(setup, cs)
  {
    if cs != [] {
      assert Last(cs) in cs && forall c <- Front(cs) :: c in cs;
      LivingShellStays(setup, Front(cs));
      FollowKeepsRoot(setup, Front(cs));
    }
  }

  lemma {:induction false} OneMarker(setup: Setup, cs: seq<Callback>)
    requires cs != [] && FromShell(setup, cs) && Trace(setup, Front(cs)).Accepted? && FreshPids(setup, cs)
    ensures MarkerLanguage.Delivered(setup, cs) == MarkerLanguage.Delivered(setup, Front(cs)) + MarkerOf(Last(cs))
  {
    assert Last(cs) in cs;
    ReachableIsValid(setup, Front(cs));
    MarkerLanguage.FollowIsTrace(setup, Front(cs));
  }

  /** As long as the run is accepted, all of the shell's markers are delivered. */
  lemma {:induction false} AllDelivered(setup: Setup, cs: seq<Callback>)
    requires FromShell(setup, cs) && Trace(setup, cs).Accepted? && FreshPids(setup, cs)
    ensures MarkerLanguage.Delivered(setup, cs) == Markers(cs)
  {
    if cs != [] {
      assert forall c <- Front(cs) :: c in cs;
      AllDelivered(setup, Front(cs));
      OneMarker(setup, cs);
    }
  }

  lemma {:induction false} AcceptedFromShell(setup: Setup, cs: seq<Callback>)
    requires setup.rootCommand.None? && FromShell(setup, cs) && ShellLives(setup, cs) && FreshPids(setup, cs)
    ensures Trace(setup, cs).Accepted? <==> MarkerLanguage.InLanguage(Markers(cs))
  {
    LivingShellStays(setup, cs);
    MarkerLanguage.AcceptedExactly(setup, cs);
    if Trace(setup, cs).Accepted? {
      AllDelivered(setup, cs);
    } else if cs != [] {
      assert forall c <- Front(cs) :: c in cs;
      AcceptedFromShell(setup, Front(cs));
      if Trace(setup, Front(cs)).Accepted? {
        AllDelivered(setup, Front(cs));
        OneMarker(setup, cs);
      } else if MarkerLanguage.InLanguage(Markers(cs)) {
        Bash.LanguagePrefix(Markers(Front(cs)), MarkerOf(Last(cs)));
      }
    }
  }

  /** Callbacks other than markers are always accepted. */
  lemma {:induction false} SilenceIsAccepted(setup: Setup, a: seq<Callback>, b: seq<Callback>)
    requires forall c <- b :: !c.Marked?
    ensures Trace(setup, a + b).Accepted? <==> Trace(setup, a).Accepted?
    decreases |b|
  {
    if b == [] {
      assert a + b == a;
    } else {
      assert Front(a + b) == a + Front(b) && Last(a + b) == Last(b);
      assert Last(b) in b && forall c <- Front(b) :: c in b;
      SilenceIsAccepted(setup, a, Front(b));
    }
  }

  // ---- The numbers of the shell are distinct ids ----

  function Armed(n: nat): nat {
    (n + 2) / 3
  }

  lemma ArmingStep(markers: seq<CommandMarker>, m: CommandMarker, used: set<U64>)
    requires Numbered(markers + [m]) && MarkerLanguage.InLanguage(markers + [m])
    requires forall id <- used :: id <= Armed(|markers|)
    ensures m.kind.Arm? ==> m.id !in used && m.id <= Armed(|markers| + 1)
  {
    var all := markers + [m];
    assert NumberedAt(all, |markers|) && MarkerLanguage.InPlace(all, |markers|);
  }

  lemma {:induction false} NumbersAreDistinct(setup: Setup, cs: seq<Callback>)
    requires setup.rootCommand.None? && FromShell(setup, cs) && FreshPids(setup, cs) && Trace(setup, cs).Accepted?
    requires MarkerLanguage.InLanguage(Markers(cs)) && Numbered(Markers(cs))
    ensures Backdating.DistinctIds(setup, cs)
    ensures forall id <- Backdating.UsedIds(setup, cs) :: id <= Armed(|Markers(cs)|)
  {
    if cs != [] {
      assert forall c <- Front(cs) :: c in cs;
      var before, c := Markers(Front(cs)), Last(cs);
      Bash.LanguagePrefix(before, MarkerOf(c));
      forall k | 0 <= k < |before| ensures NumberedAt(before, k) {
        assert NumberedAt(Markers(cs), k);
      }
      NumbersAreDistinct(setup, Front(cs));
      if c.Marked? {
        ArmingStep(before, c.marker, Backdating.UsedIds(setup, Front(cs)));
      }
    }
  }

  lemma {:induction false} DistinctThroughSilence(setup: Setup, a: seq<Callback>, b: seq<Callback>)
    requires Backdating.DistinctIds(setup, a) && forall c <- b :: !c.Marked?
    ensures Backdating.DistinctIds(setup, a + b) && Backdating.UsedIds(setup, a + b) == Backdating.UsedIds(setup, a)
    decreases |b|
  {
    if b == [] {
      assert a + b == a;
    } else {
      assert Front(a + b) == a + Front(b) && Last(a + b) == Last(b);
      assert Last(b) in b && forall c <- Front(b) :: c in b;
      DistinctThroughSilence(setup, a, Front(b));
    }
  }

  // ---- Stops of a session ----

  /** The shell's end is not among these stops. */
  predicate Alive(setup: Setup, life: seq<Stop>) {
    forall s <- life :: s.EndStop? ==> s.tid != setup.pid
  }

  /** From its end on, the shell makes no more system calls. */
  predicate Quiet(setup: Setup, rest: seq<Stop>) {
    forall s <- rest :: s.SyscallStop? ==> s.tid != setup.pid
  }

  /** The callbacks of stops that can all be read. */
  function CallbacksOf(setup: Setup, channelFd: Option<int>, stops: seq<Stop>): seq<Callback> {
    if Heard(setup, channelFd, stops).Success? then Heard(setup, channelFd, stops).value.0 else []
  }

  lemma {:induction false} AliveIsHeard(setup: Setup, channelFd: Option<int>, life: seq<Stop>)
    requires Alive(setup, life) && Heard(setup, channelFd, life).Success?
    ensures ShellLives(setup, Heard(setup, channelFd, life).value.0)
  {
    if life != [] {
      assert Last(life) in life && forall s <- Front(life) :: s in life;
      AliveIsHeard(setup, channelFd, Front(life));
    }
  }

  /** What the other tasks do is heard without markers. */
  lemma QuietStop(r: Reader, stop: Stop)
    requires WellFormed(r) && (stop.SyscallStop? ==> stop.tid != r.root)
    ensures CallbacksAt(r, stop).Success?
    ensures forall c <- CallbacksAt(r, stop).value.0 :: !c.Marked?
    ensures CallbacksAt(r, stop).value.1.parser == r.parser && CallbacksAt(r, stop).value.1.root == r.root
  {
    Protocol.FeedNothing(r.parser);
    assert BytesAt(r, stop) == Success("");
    assert MarkersAt(r, stop) == Success(([], r.parser));
  }

  type Hearing = Result<(seq<Callback>, Reader), CollectError>

  /** More callbacks were heard, no marker among them, and the parser has not moved. */
  predicate HeardMore(before: Hearing, after: Hearing, more: seq<Callback>) {
    && before.Success? && after.Success?
    && after.value.0 == before.value.0 + more && after.value.1.parser == before.value.1.parser
    && forall c <- more :: !c.Marked?
  }

  lemma HeardMoreTwice(a: Hearing, b: Hearing, c: Hearing, x: seq<Callback>, y: seq<Callback>)
    requires HeardMore(a, b, x) && HeardMore(b, c, y)
    ensures HeardMore(a, c, x + y)
  {
    assert a.value.0 + x + y == a.value.0 + (x + y);
  }

  lemma LastIsHeard(setup: Setup, channelFd: Option<int>, stops: seq<Stop>) returns (more: seq<Callback>)
    requires stops != [] && Heard(setup, channelFd, Front(stops)).Success?
    requires Last(stops).SyscallStop? ==> Last(stops).tid != setup.pid
    ensures HeardMore(Heard(setup, channelFd, Front(stops)), Heard(setup, channelFd, stops), more)
  {
    var r := Heard(setup, channelFd, Front(stops)).value.1;
    OnlyTheShellIsHeard(setup, channelFd, Front(stops));
    QuietStop(r, Last(stops));
    more := CallbacksAt(r, Last(stops)).value.0;
  }

  lemma {:induction false} QuietIsHeard(setup: Setup, channelFd: Option<int>, life: seq<Stop>, rest: seq<Stop>)
    returns (more: seq<Callback>)
    requires Quiet(setup, rest) && Heard(setup, channelFd, life).Success?
    ensures HeardMore(Heard(setup, channelFd, life), Heard(setup, channelFd, life + rest), more)
    decreases |rest|
  {
    if rest == [] {
      more := [];
      assert life + rest == life;
    } else {
      assert Front(life + rest) == life + Front(rest) && Last(life + rest) == Last(rest);
      assert Last(rest) in rest && forall s <- Front(rest) :: s in rest;
      var before := QuietIsHeard(setup, channelFd, life, Front(rest));
      var last := LastIsHeard(setup, channelFd, life + rest);
      HeardMoreTwice(Heard(setup, channelFd, life), Heard(setup, channelFd, life + Front(rest)),
                     Heard(setup, channelFd, life + rest), before, last);
      more := before + last;
    }
  }

  // ---- From end to end ----

  /** A session: what bash did, and the stops that the collector saw while it wrote about that. */
  ghost predicate Recorded(
    setup: Setup, channelFd: Option<int>, life: seq<Stop>, rest: seq<Stop>, actions: seq<Bash.Action>)
  {
    && setup.rootCommand.None?
    && |actions| < 0x7FFF_FFFF_FFFF_FFFF && (forall a <- actions :: Printable(a))
    && Alive(setup, life) && Quiet(setup, rest) && FreshPids(setup, CallbacksOf(setup, channelFd, life + rest))
    && Written(setup, channelFd, life) == Success(Bash.Bytes(Bash.Session(actions).1))
  }

  function Sent(actions: seq<Bash.Action>): seq<CommandMarker>
    requires |actions| < 0x7FFF_FFFF_FFFF_FFFF
  {
    Bash.MarkersSent(Bash.Session(actions).1)
  }

  lemma SessionIsHeard(
    setup: Setup, channelFd: Option<int>, life: seq<Stop>, rest: seq<Stop>, actions: seq<Bash.Action>)
    returns (cs: seq<Callback>, more: seq<Callback>)
    requires Recorded(setup, channelFd, life, rest, actions)
    ensures Heard(setup, channelFd, life + rest).Success?
    ensures Heard(setup, channelFd, life).Success? && Heard(setup, channelFd, life).value.0 == cs
    ensures Heard(setup, channelFd, life + rest).value.0 == cs + more
    ensures Heard(setup, channelFd, life + rest).value.1.parser == Protocol.IDLE
    ensures Markers(cs) == Sent(actions) && forall c <- more :: !c.Marked?
    ensures FromShell(setup, cs) && ShellLives(setup, cs) && FreshPids(setup, cs + more)
  {
    SessionIsSendable(actions);
    Bash.ReceivedAsSent(Bash.Session(actions).1);
    HeardAsWritten(setup, channelFd, life);
    OnlyTheShellIsHeard(setup, channelFd, life);
    AliveIsHeard(setup, channelFd, life);
    cs := Heard(setup, channelFd, life).value.0;
    more := QuietIsHeard(setup, channelFd, life, rest);
  }

  lemma {:induction false} FreshPrefix(setup: Setup, a: seq<Callback>, b: seq<Callback>)
    requires FreshPids(setup, a + b)
    ensures FreshPids(setup, a)
    decreases |b|
  {
    if b == [] {
      assert a + b == a;
    } else {
      assert Front(a + b) == a + Front(b);
      FreshPrefix(setup, a, Front(b));
    }
  }

  /**
   The recording of a whole session succeeds exactly if bash's DEBUG trap fired at least twice
   between any two prompts; then no byte is left over, and until the shell ends the command
   events of the log say just what bash sent.
   */
  lemma {:induction false} SessionIsRecorded(
    setup: Setup, channelFd: Option<int>, life: seq<Stop>, rest: seq<Stop>, actions: seq<Bash.Action>)
    requires Recorded(setup, channelFd, life, rest, actions)
    ensures Collected(setup, channelFd, life + rest).Success? <==> Bash.WellPaced(actions)
    ensures Bash.WellPaced(actions) ==> Collected(setup, channelFd, life + rest).value.0.parser == Protocol.IDLE
    ensures Bash.WellPaced(actions) ==>
              var lived := Trace(setup, CallbacksOf(setup, channelFd, life));
              && lived.Accepted?
              && MarkerLanguage.Describe(MarkerLanguage.CommandEvents(lived.events))
                 == MarkerLanguage.Announce(Sent(actions))
  {
    var cs, more := SessionIsHeard(setup, channelFd, life, rest, actions);
    FreshPrefix(setup, cs, more);
    Bash.AcceptableExactly(actions);
    AcceptedFromShell(setup, cs);
    SilenceIsAccepted(setup, cs, more);
    CollectedIsTrace(setup, channelFd, life + rest);
    if Bash.WellPaced(actions) {
      LivingShellStays(setup, cs);
      AllDelivered(setup, cs);
      MarkerLanguage.MarkersAreLogged(setup, cs);
    }
  }

  /** A recorded session arms every id once, so its whole log can be stored. */
  lemma {:induction false} SessionIsStored(
    setup: Setup, channelFd: Option<int>, life: seq<Stop>, rest: seq<Stop>, actions: seq<Bash.Action>)
    requires Recorded(setup, channelFd, life, rest, actions) && Bash.WellPaced(actions)
    ensures Collected(setup, channelFd, life + rest).Success?
    ensures Backdating.FreshIds(setup, CallbacksOf(setup, channelFd, life + rest))
    ensures Capsule.Store(Collected(setup, channelFd, life + rest).value.1.events).Success?
  {
    var cs, more := SessionIsHeard(setup, channelFd, life, rest, actions);
    FreshPrefix(setup, cs, more);
    SessionIsRecorded(setup, channelFd, life, rest, actions);
    CollectedIsTrace(setup, channelFd, life + rest);
    SilenceIsAccepted(setup, cs, more);
    Bash.AcceptableExactly(actions);
    SessionIsNumbered(actions);
    NumbersAreDistinct(setup, cs);
    DistinctThroughSilence(setup, cs, more);
    Backdating.DistinctIdsAreFresh(setup, cs + more);
    StartsAreStored(setup, cs + more, Armed(|Sent(actions)|));
  }

  lemma {:induction false} StartsAreStored(setup: Setup, cs: seq<Callback>, bound: nat)
    requires Trace(setup, cs).Accepted? && FreshPids(setup, cs)
    requires Backdating.DistinctIds(setup, cs) && bound < 0x8000_0000_0000_0000
    requires forall id <- Backdating.UsedIds(setup, cs) :: id <= bound
    ensures Capsule.Store(Trace(setup, cs).events).Success?
  {
    Backdating.DistinctIdsAreFresh(setup, cs);
    Backdating.FreshIdsStartOnce(setup, cs);
    Backdating.UsedIdsAreKnown(setup, cs);
    Recording.RunIsStoredExactly(setup, cs);
  }

  /** Every stored command of a session has a timeline that begins with its start. */
  lemma {:induction false} SessionTimelines(
    setup: Setup, channelFd: Option<int>, life: seq<Stop>, rest: seq<Stop>, actions: seq<Bash.Action>)
    requires Recorded(setup, channelFd, life, rest, actions) && Bash.WellPaced(actions)
    requires Monotone(setup, CallbacksOf(setup, channelFd, life + rest))
    requires Showing.Clocked(setup, CallbacksOf(setup, channelFd, life + rest))
    ensures Collected(setup, channelFd, life + rest).Success?
    ensures var log := Collected(setup, channelFd, life + rest).value.1.events;
            && Capsule.Store(log).Success?
            && forall id: I64 | id in Capsule.Store(log).value.commands ::
                 Showing.BeginsWithStart(Capsule.Store(log).value, id)
  {
    var cs := CallbacksOf(setup, channelFd, life + rest);
    SessionIsStored(setup, channelFd, life, rest, actions);
    CollectedIsTrace(setup, channelFd, life + rest);
    Backdating.FreshIdsAreBackDated(setup, cs);
    forall id: I64 | id in Capsule.Store(Trace(setup, cs).events).value.commands
      ensures Showing.BeginsWithStart(Capsule.Store(Trace(setup, cs).events).value, id)
    {
      Showing.BackDatedTimeline(setup, cs, id);
    }
  }

  // ---- The command table of a session ----

  /** The number of command events that so many markers lead to. */
  function EventsOf(n: nat): nat {
    2 * (n / 3) + (if n % 3 == 2 then 1 else 0)
  }

  /** The k-th marker, if it is no arm, is announced at its place and as itself. */
  lemma {:induction false} AnnouncedAt(markers: seq<CommandMarker>, k: nat)
    requires MarkerLanguage.InLanguage(markers)
    ensures |MarkerLanguage.Announce(markers)| == EventsOf(|markers|)
    ensures k < |markers| && k % 3 != 0 ==>
              && EventsOf(k) < EventsOf(|markers|)
              && [MarkerLanguage.Announce(markers)[EventsOf(k)]] == MarkerLanguage.AnnounceOne(markers[k])
  {
    if markers != [] {
      var n := |markers| - 1;
      assert Front(markers) + [markers[n]] == markers;
      Bash.LanguagePrefix(Front(markers), [markers[n]]);
      AnnouncedAt(Front(markers), k);
      assert MarkerLanguage.InPlace(markers, n);
    }
  }

  lemma {:induction false} DescribedAt(events: seq<Event>, k: nat)
    ensures |MarkerLanguage.Describe(events)| == |events|
    ensures k < |events| ==> MarkerLanguage.Describe(events)[k] == MarkerLanguage.BracketOf(events[k])
  {
    if events != [] {
      DescribedAt(Front(events), k);
    }
  }

  /** The row says what the start marker said and, if there is one, what the end marker said. */
  predicate Tells(commands: map<int, Capsule.CommandRow>, shell: int, markers: seq<CommandMarker>, k: nat)
    requires k < |markers|
  {
    && markers[k].id in commands
    && var row := commands[markers[k].id];
       && row.shellPid == shell && row.command == markers[k].text && row.cwd == markers[k].cwd
       && (k + 1 < |markers| ==>
             && row.end.Some?
             && row.end.value.exitCode == markers[k + 1].exitCode && row.end.value.cwd == markers[k + 1].cwd)
  }

  lemma AnnouncedOfTriple(i: nat)
    ensures EventsOf(3 * i + 1) == 2 * i && EventsOf(3 * i + 2) == 2 * i + 1
  {
  }

  /** The event at a marker's place bears the marker. */
  lemma {:induction false} EventOfMarker(lived: seq<Event>, markers: seq<CommandMarker>, k: nat)
    requires MarkerLanguage.InLanguage(markers) && k < |markers| && k % 3 != 0
    requires MarkerLanguage.Describe(lived) == MarkerLanguage.Announce(markers)
    ensures EventsOf(k) < |lived|
    ensures [MarkerLanguage.BracketOf(lived[EventsOf(k)])] == MarkerLanguage.AnnounceOne(markers[k])
    ensures markers[k].kind == MarkerLanguage.KindAt(k)
  {
    AnnouncedAt(markers, k);
    DescribedAt(lived, EventsOf(k));
    assert MarkerLanguage.InPlace(markers, k);
  }

  predicate StartSays(e: Event, m: CommandMarker) {
    e.command == Some(m.id) && e.resource == m.text && Capsule.MetadataValue(e, "cwd", "") == m.cwd
  }

  predicate EndSays(e: Event, m: CommandMarker) {
    CommandTable.EndOf(e).exitCode == m.exitCode && CommandTable.EndOf(e).cwd == m.cwd
  }

  lemma EventSays(e: Event, m: CommandMarker)
    requires [MarkerLanguage.BracketOf(e)] == MarkerLanguage.AnnounceOne(m)
    ensures m.kind.Start? ==> StartSays(e, m)
    ensures m.kind.End? ==> EndSays(e, m)
  {
    assert MarkerLanguage.BracketOf(e) == MarkerLanguage.AnnounceOne(m)[0];
    assert m.kind.Start? ==> e.metadata == StartMetadata(m);
    assert m.kind.End? ==> e.metadata == EndMetadata(m);
  }

  /** The events at the places of one triple say what its markers said. */
  predicate TripleIn(events: seq<Event>, markers: seq<CommandMarker>, i: nat)
    requires 3 * i + 1 < |markers|
  {
    && 2 * i < |events| && StartSays(events[2 * i], markers[3 * i + 1])
    && (3 * i + 2 < |markers| ==> 2 * i + 1 < |events| && EndSays(events[2 * i + 1], markers[3 * i + 2]))
  }

  /** The events behind the start and the end marker of one triple. */
  lemma {:induction false} TripleSays(lived: seq<Event>, markers: seq<CommandMarker>, i: nat)
    requires MarkerLanguage.InLanguage(markers) && 3 * i + 1 < |markers|
    requires MarkerLanguage.Describe(lived) == MarkerLanguage.Announce(markers)
    ensures TripleIn(lived, markers, i)
  {
    AnnouncedOfTriple(i);
    EventOfMarker(lived, markers, 3 * i + 1);
    EventSays(lived[2 * i], markers[3 * i + 1]);
    if 3 * i + 2 < |markers| {
      EventOfMarker(lived, markers, 3 * i + 2);
      EventSays(lived[2 * i + 1], markers[3 * i + 2]);
    }
  }

  /** What one start marker and its end marker lead to in the table. */
  lemma MarkerRow(
    commands: map<int, Capsule.CommandRow>, shell: int, all: seq<Event>, markers: seq<CommandMarker>, i: nat)
    requires 3 * i + 1 < |markers| && TripleIn(all, markers, i)
    requires CommandTable.IsRow(commands, all, 2 * i)
    requires forall id <- commands :: commands[id].shellPid == shell
    ensures Tells(commands, shell, markers, 3 * i + 1)
  {
  }

  /** Every row has a start marker. */
  lemma RowMarker(
    commands: map<int, Capsule.CommandRow>, lived: seq<Event>, all: seq<Event>, markers: seq<CommandMarker>, id: int)
    returns (i: nat)
    requires MarkerLanguage.InLanguage(markers) && MarkerLanguage.Bracketed(all)
    requires MarkerLanguage.Describe(lived) == MarkerLanguage.Announce(markers) && lived <= all
    requires forall j | |lived| <= j < |all| :: !all[j].kind.CommandStart?
    requires CommandTable.RowsAreBrackets(commands, all) && id in commands
    ensures 3 * i + 1 < |markers| && markers[3 * i + 1].kind.Start? && markers[3 * i + 1].id == id
  {
    var j: nat :| CommandTable.OpensAt(all, j, id);
    assert MarkerLanguage.Brackets(all, j) && j < |lived| && all[j] == lived[j];
    i := j / 2;
    AnnouncedAt(markers, 0);
    DescribedAt(lived, j);
    AnnouncedOfTriple(i);
    assert 2 * i < EventsOf(|markers|);
    EventOfMarker(lived, markers, 3 * i + 1);
  }

  lemma NoQuietStart(s: State, c: Callback)
    requires Valid(s) && FreshIn(s, c) && Step(s, c).Accepted? && !c.Marked?
    ensures forall e <- Step(s, c).events :: !e.kind.CommandStart?
  {
    forall e <- Step(s, c).events ensures !e.kind.CommandStart? {
      Backdating.UnmarkedEvent(s, c, e);
    }
  }

  /** The longer log has these events more, and no start is among them. */
  predicate GrowsQuietly(log: seq<Event>, longer: seq<Event>, events: seq<Event>) {
    longer == log + events && forall e <- events :: !e.kind.CommandStart?
  }

  lemma GrowsTwice(log: seq<Event>, longer: seq<Event>, longest: seq<Event>, a: seq<Event>, b: seq<Event>)
    requires GrowsQuietly(log, longer, a) && GrowsQuietly(longer, longest, b)
    ensures GrowsQuietly(log, longest, a + b)
  {
    assert log + a + b == log + (a + b);
  }

  lemma LastGrowsQuietly(setup: Setup, run: seq<Callback>) returns (events: seq<Event>)
    requires run != [] && Trace(setup, run).Accepted? && FreshPids(setup, run) && !Last(run).Marked?
    ensures Trace(setup, Front(run)).Accepted?
    ensures GrowsQuietly(Trace(setup, Front(run)).events, Trace(setup, run).events, events)
  {
    ReachableIsValid(setup, Front(run));
    NoQuietStart(Trace(setup, Front(run)).state, Last(run));
    events := Step(Trace(setup, Front(run)).state, Last(run)).events;
  }

  /** The log only grows; without markers it grows by no start. */
  lemma {:induction false} LogGrowsQuietly(setup: Setup, a: seq<Callback>, b: seq<Callback>) returns (events: seq<Event>)
    requires Trace(setup, a + b).Accepted? && FreshPids(setup, a + b) && forall c <- b :: !c.Marked?
    ensures Trace(setup, a).Accepted?
    ensures GrowsQuietly(Trace(setup, a).events, Trace(setup, a + b).events, events)
    decreases |b|
  {
    if b == [] {
      assert a + b == a;
      events := [];
    } else {
      assert Front(a + b) == a + Front(b) && Last(a + b) == Last(b);
      assert Last(b) in b && forall c <- Front(b) :: c in b;
      var more := LastGrowsQuietly(setup, a + b);
      var before := LogGrowsQuietly(setup, a, Front(b));
      GrowsTwice(Trace(setup, a).events, Trace(setup, a + Front(b)).events, Trace(setup, a + b).events, before, more);
      events := before + more;
    }
  }

  lemma {:induction false} BracketsGrowQuietly(lived: seq<Event>, events: seq<Event>)
    requires forall e <- events :: !e.kind.CommandStart?
    ensures MarkerLanguage.CommandEvents(lived) <= MarkerLanguage.CommandEvents(lived + events)
    ensures var all := MarkerLanguage.CommandEvents(lived + events);
            forall i | |MarkerLanguage.CommandEvents(lived)| <= i < |all| :: !all[i].kind.CommandStart?
  {
    var first, rest := MarkerLanguage.CommandEvents(lived), MarkerLanguage.CommandEvents(events);
    var all: seq<Event> := first + rest;
    MarkerLanguage.CommandEventsConcat(lived, events);
    forall i | |first| <= i < |all| ensures !all[i].kind.CommandStart? {
      var e := rest[i - |first|];
      assert e in rest;
      CommandTable.CommandEventIn(events, e);
    }
  }

  /** The command table of a recorded session. */
  function CommandsOf(setup: Setup, channelFd: Option<int>, stops: seq<Stop>): map<int, Capsule.CommandRow> {
    var collected := Collected(setup, channelFd, stops);
    if collected.Failure? then map[]
    else
      var stored := Capsule.Store(collected.value.1.events);
      if stored.Failure? then map[] else stored.value.commands
  }

  /**
   The command table holds what bash sent, and nothing else: a row for every start marker, with
   its text and directory, and with the exit code and directory of its end marker.
   */
  lemma SessionTable(
    setup: Setup, channelFd: Option<int>, life: seq<Stop>, rest: seq<Stop>, actions: seq<Bash.Action>)
    requires Recorded(setup, channelFd, life, rest, actions) && Bash.WellPaced(actions)
    ensures var commands := CommandsOf(setup, channelFd, life + rest);
            && (forall k | 0 <= k < |Sent(actions)| && Sent(actions)[k].kind.Start? ::
                  Tells(commands, setup.pid, Sent(actions), k))
            && (forall id <- commands :: exists m <- Sent(actions) :: m.kind.Start? && m.id == id)
  {
    var cs, more := SessionIsHeard(setup, channelFd, life, rest, actions);
    SessionIsStored(setup, channelFd, life, rest, actions);
    SessionIsRecorded(setup, channelFd, life, rest, actions);
    CollectedIsTrace(setup, channelFd, life + rest);
    Bash.AcceptableExactly(actions);
    var events := LogGrowsQuietly(setup, cs, more);
    MarkerLanguage.LogIsBracketed(setup, cs + more);
    CommandTable.CommandTableOfRun(setup, cs + more);
    BracketsGrowQuietly(Trace(setup, cs).events, events);
    TableTells(CommandsOf(setup, channelFd, life + rest), setup.pid,
               MarkerLanguage.CommandEvents(Trace(setup, cs).events),
               MarkerLanguage.CommandEvents(Trace(setup, cs + more).events), Sent(actions));
  }

  lemma StartIndex(markers: seq<CommandMarker>, k: nat)
    requires MarkerLanguage.InLanguage(markers) && k < |markers| && markers[k].kind.Start?
    ensures k == 3 * (k / 3) + 1
  {
    assert MarkerLanguage.InPlace(markers, k);
  }

  lemma TripleInLonger(lived: seq<Event>, all: seq<Event>, markers: seq<CommandMarker>, i: nat)
    requires 3 * i + 1 < |markers| && lived <= all && TripleIn(lived, markers, i)
    ensures TripleIn(all, markers, i)
  {
    assert lived[2 * i] == all[2 * i];
    if 3 * i + 2 < |markers| {
      assert lived[2 * i + 1] == all[2 * i + 1];
    }
  }

  lemma TripleTells(
    commands: map<int, Capsule.CommandRow>, shell: int, all: seq<Event>, markers: seq<CommandMarker>, i: nat)
    requires 3 * i + 1 < |markers| && TripleIn(all, markers, i)
    requires CommandTable.RowsAreBrackets(commands, all)
    requires forall id <- commands :: commands[id].shellPid == shell
    ensures Tells(commands, shell, markers, 3 * i + 1)
  {
    assert CommandTable.IsRow(commands, all, 2 * i);
    MarkerRow(commands, shell, all, markers, i);
  }

  lemma {:induction false} TableTells(
    commands: map<int, Capsule.CommandRow>, shell: int,
    lived: seq<Event>, all: seq<Event>, markers: seq<CommandMarker>)
    requires MarkerLanguage.InLanguage(markers) && MarkerLanguage.Bracketed(all)
    requires MarkerLanguage.Describe(lived) == MarkerLanguage.Announce(markers) && lived <= all
    requires forall i | |lived| <= i < |all| :: !all[i].kind.CommandStart?
    requires CommandTable.RowsAreBrackets(commands, all)
    requires forall id <- commands :: commands[id].shellPid == shell
    ensures forall k | 0 <= k < |markers| && markers[k].kind.Start? :: Tells(commands, shell, markers, k)
    ensures forall id <- commands :: exists m <- markers :: m.kind.Start? && m.id == id
  {
    forall k | 0 <= k < |markers| && markers[k].kind.Start? ensures Tells(commands, shell, markers, k) {
      StartIndex(markers, k);
      TripleSays(lived, markers, k / 3);
      TripleInLonger(lived, all, markers, k / 3);
      TripleTells(commands, shell, all, markers, k / 3);
    }
    forall id <- commands ensures exists m <- markers :: m.kind.Start? && m.id == id {
      var i := RowMarker(commands, lived, all, markers, id);
      assert markers[3 * i + 1] in markers;
    }
  }

  // ---- Command mode ----

  /**
   The recording of a single command ends well, its log can be stored, and the results for
   command 1 are those of the whole run.
   */
  lemma {:induction false} CommandIsRecorded(setup: Setup, stops: seq<Stop>)
    requires setup.rootCommand.Some?
    requires var cs := CallbacksOf(setup, None, stops);
             && FreshPids(setup, cs) && Announced(setup, cs) && NoAfterExit(setup, cs)
             && Monotone(setup, cs) && Showing.Clocked(setup, cs)
    ensures Collected(setup, None, stops).Success?
    ensures Capsule.Store(Collected(setup, None, stops).value.1.events).Success?
    ensures Showing.OneIsWhole(Capsule.Store(Collected(setup, None, stops).value.1.events).value)
  {
    NoChannelNoMarkers(setup, stops);
    CollectedIsTrace(setup, None, stops);
    Showing.FilteredIsWhole(setup, CallbacksOf(setup, None, stops));
  }
}
