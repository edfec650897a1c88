/**
 The collector's loop from ptrace stops to callbacks: it pairs the entry and exit stops of
 each thread and takes markers out of the shell's writes to the command channel.
 */
module Collecting {
  import opened Wrappers
  import opened Text
  import opened Events
  import opened Tracker
  import opened Runs
  import Channel
  import ExecutionTracking
  import Protocol

  datatype ThreadState = ThreadState(inSyscall: bool, name: SyscallName, args: Registers)

  const IDLE_THREAD := ThreadState(false, OtherCall, [0, 0, 0, 0, 0, 0])

  /** A stop with what the collector reads at it: registers, tracee memory, the clock. */
  datatype Stop =
    | SyscallStop(
        tid: Tid, name: SyscallName, args: Registers, rax: I64, memory: Memory, buffer: Option<string>, ns: U64)
    | CloneStop(tid: Tid, child: Tid, event: PtraceEvent, ns: U64)
    | ExecStop(tid: Tid, exeLink: string, cwdLink: string, ns: U64)
    | EndStop(tid: Tid, exitCode: I32, termSignal: I32, ns: U64)

  datatype CollectError =
    | WriteTooLong
    | BufferUnreadable
    | BadProtocol(protocol: Protocol.ProtocolError)
    | BadMarker(marker: MarkerError)

  const MAXIMUM_COMMAND_WRITE: nat := 65 * 1024

  /** What the loop keeps besides the execution state. */
  datatype Reader = Reader(
    root: Tid,
    threads: map<int, ThreadState>,
    aliases: set<int>,
    parser: Protocol.Parser)

  predicate WellFormed(r: Reader) {
    |r.parser.fields| < Protocol.PROTOCOL_FIELDS
  }

  // ---- From stops to callbacks ----

  function ThreadOf(threads: map<int, ThreadState>, tid: int): ThreadState {
    if tid in threads then threads[tid] else IDLE_THREAD
  }

  /** The stop is the second one of a system call. */
  predicate Completes(threads: map<int, ThreadState>, stop: Stop) {
    stop.SyscallStop? && ThreadOf(threads, stop.tid).inSyscall
  }

  /** The call of which the exit stop is the second half; the first half was kept with the thread. */
  function CompletedCall(thread: ThreadState, stop: Stop): RawSyscall
    requires stop.SyscallStop?
  {
    RawSyscall(stop.tid, thread.name, thread.args, stop.rax, stop.ns)
  }

  function ThreadsAfter(threads: map<int, ThreadState>, stop: Stop): map<int, ThreadState> {
    match stop
    case EndStop(tid, _, _, _) => threads - {tid}
    case SyscallStop(tid, name, args, _, _, _, _) =>
      threads[tid := if Completes(threads, stop) then ThreadOf(threads, tid).(inSyscall := false)
                     else ThreadState(true, name, args)]
    case _ => threads
  }

  function AliasesAfter(r: Reader, stop: Stop): set<int> {
    if Completes(r.threads, stop) && stop.tid == r.root then
      Channel.Observed(r.aliases, CompletedCall(ThreadOf(r.threads, stop.tid), stop))
    else r.aliases
  }

  /** The bytes that reach the channel with this call. */
  function ChannelBytes(r: Reader, call: RawSyscall, buffer: Option<string>): Result<string, CollectError> {
    if call.tid == r.root && Channel.Receiving(r.aliases, call) && call.result > 0 then
      if call.result > MAXIMUM_COMMAND_WRITE then Failure(WriteTooLong)
      else if buffer.None? then Failure(BufferUnreadable)
      else Success(buffer.value)
    else Success("")
  }

  function BytesAt(r: Reader, stop: Stop): Result<string, CollectError> {
    if Completes(r.threads, stop) then
      ChannelBytes(r, CompletedCall(ThreadOf(r.threads, stop.tid), stop), stop.buffer)
    else Success("")
  }

  /** The markers that this stop completes, and the parser after it. */
  function MarkersAt(r: Reader, stop: Stop): (read: Result<(seq<CommandMarker>, Protocol.Parser), CollectError>)
    requires WellFormed(r)
    ensures read.Success? ==> |read.value.1.fields| < Protocol.PROTOCOL_FIELDS
  {
    var bytes :- BytesAt(r, stop);
    var fed := Protocol.Feed(r.parser, bytes);
    if fed.Failure? then Failure(BadProtocol(fed.error)) else Success((fed.value.1, fed.value.0))
  }

  function MarkedAll(tid: Tid, markers: seq<CommandMarker>, ns: U64): seq<Callback> {
    seq(|markers|, i requires 0 <= i < |markers| => Marked(tid, markers[i], ns))
  }

  /** The callbacks other than markers that a stop leads to. */
  function OtherCallbacks(r: Reader, stop: Stop): seq<Callback> {
    match stop
    case EndStop(tid, code, signal, ns) => [Exited(tid, code, signal, ns)]
    case ExecStop(tid, exe, cwd, ns) => [Execed(tid, exe, cwd, ns)]
    case CloneStop(tid, child, event, ns) => [Created(tid, child, event, ThreadOf(r.threads, tid).args[0], ns)]
    case SyscallStop(_, _, _, _, _, _, _) =>
      if Completes(r.threads, stop) then
        [Called(CompletedCall(ThreadOf(r.threads, stop.tid), stop), stop.memory)]
      else []
  }

  /** Threads and channel descriptors after a stop, whatever was written. */
  function Watch(r: Reader, stop: Stop): Reader {
    r.(threads := ThreadsAfter(r.threads, stop), aliases := AliasesAfter(r, stop))
  }

  function CallbacksAt(r: Reader, stop: Stop): (read: Result<(seq<Callback>, Reader), CollectError>)
    requires WellFormed(r)
    ensures read.Success? ==> WellFormed(read.value.1)
  {
    var (markers, parser) :- MarkersAt(r, stop);
    Success((MarkedAll(stop.tid, markers, stop.ns) + OtherCallbacks(r, stop), Watch(r, stop).(parser := parser)))
  }

  // ---- From callbacks to the log ----

  /** One more callback on the state and log so far. */
  function Extend(o: Outcome, c: Callback): Outcome {
    if o.Refused? then o
    else
      var next := Step(o.state, c);
      if next.Refused? then next else Accepted(next.state, o.events + next.events)
  }

  function Apply(o: Outcome, cs: seq<Callback>): Outcome {
    if cs == [] then o else Extend(Apply(o, Front(cs)), Last(cs))
  }

  /** One stop of the loop: the reader after it and the outcome of all callbacks so far. */
  function OnStop(r: Reader, o: Outcome, stop: Stop): Result<(Reader, Outcome), CollectError>
    requires WellFormed(r)
  {
    var (callbacks, reader) :- CallbacksAt(r, stop);
    var after := Apply(o, callbacks);
    if after.Refused? then Failure(BadMarker(after.error)) else Success((reader, after))
  }

  lemma {:induction false} RefusalStays(o: Outcome, cs: seq<Callback>, k: nat)
    requires k <= |cs| && Apply(o, cs[..k]).Refused?
    ensures Apply(o, cs) == Apply(o, cs[..k])
    decreases |cs| - k
  {
    if k == |cs| {
      assert cs[..k] == cs;
    } else {
      assert Front(cs[..k + 1]) == cs[..k];
      RefusalStays(o, cs, k + 1);
    }
  }

  lemma {:induction false} ApplyMore(o: Outcome, cs: seq<Callback>, c: Callback)
    ensures Apply(o, cs + [c]) == Extend(Apply(o, cs), c)
  {
    assert Front(cs + [c]) == cs;
  }

  lemma {:induction false} ApplyTwice(o: Outcome, a: seq<Callback>, b: seq<Callback>)
    ensures Apply(o, a + b) == Apply(Apply(o, a), b)
    decreases |b|
  {
    if b == [] {
      assert a + b == a;
    } else {
      assert Front(a + b) == a + Front(b);
      ApplyTwice(o, a, Front(b));
    }
  }

  lemma {:induction false} TraceIsApply(setup: Setup, cs: seq<Callback>)
    ensures Trace(setup, cs) == Apply(Trace(setup, []), cs)
  {
    if cs != [] {
      TraceIsApply(setup, Front(cs));
    }
  }

  lemma {:induction false} ApplyOne(o: Outcome, c: Callback)
    ensures Apply(o, [c]) == Extend(o, c)
  {
    ApplyMore(o, [], c);
    assert [] + [c] == [c];
  }

  lemma PlainCallbacks(r: Reader, stop: Stop)
    requires WellFormed(r) && !Completes(r.threads, stop)
    ensures CallbacksAt(r, stop) == Success((OtherCallbacks(r, stop), Watch(r, stop)))
  {
    Protocol.FeedNothing(r.parser);
    assert MarkersAt(r, stop) == Success(([], r.parser));
    assert MarkedAll(stop.tid, [], stop.ns) == [];
    assert [] + OtherCallbacks(r, stop) == OtherCallbacks(r, stop);
  }

  /** At most one callback, and no marker; such a callback is always accepted. */
  lemma {:induction false} PlainApply(o: Outcome, cs: seq<Callback>)
    requires o.Accepted? && |cs| <= 1 && forall c <- cs :: !c.Marked?
    ensures cs == [] ==> Apply(o, cs) == o
    ensures cs != [] ==> Step(o.state, cs[0]).Accepted? && Apply(o, cs) == Extend(o, cs[0])
  {
    if cs != [] {
      ApplyOne(o, cs[0]);
      assert cs == [cs[0]];
    }
  }

  lemma OthersAreFew(r: Reader, stop: Stop)
    ensures |OtherCallbacks(r, stop)| <= 1 && forall c <- OtherCallbacks(r, stop) :: !c.Marked?
  {
  }

  lemma {:induction false} StopOfCallbacks(r: Reader, o: Outcome, stop: Stop, cs: seq<Callback>, reader: Reader)
    requires WellFormed(r) && CallbacksAt(r, stop) == Success((cs, reader)) && Apply(o, cs).Accepted?
    ensures OnStop(r, o, stop) == Success((reader, Apply(o, cs)))
  {
  }

  /** A stop that completes no system call leads to at most one callback, and no marker. */
  lemma PlainStop(r: Reader, o: Outcome, stop: Stop)
    requires WellFormed(r) && !Completes(r.threads, stop) && o.Accepted?
    ensures var cs := OtherCallbacks(r, stop);
            && (cs == [] ==> OnStop(r, o, stop) == Success((Watch(r, stop), o)))
            && (cs != [] ==>
                  && Step(o.state, cs[0]).Accepted?
                  && OnStop(r, o, stop) == Success((Watch(r, stop), Extend(o, cs[0]))))
  {
    var cs := OtherCallbacks(r, stop);
    PlainCallbacks(r, stop);
    OthersAreFew(r, stop);
    PlainApply(o, cs);
    StopOfCallbacks(r, o, stop, cs, Watch(r, stop));
  }

  // ---- The loop's state, updated in place ----

  class PtraceCollector {
    const rootPid: Tid
    const channelFd: Option<int>
    const execution: ExecutionTracking.ExecutionState
    const protocol: Protocol.CommandProtocol
    const channel: Channel.CommandChannelTracker
    var threads: map<int, ThreadState>

    function Reading(): Reader
      reads this, protocol, channel
    {
      Reader(rootPid, threads, channel.aliases, protocol.Abstract())
    }

    function SoFar(): Outcome
      reads execution
    {
      Accepted(execution.Abstract(), execution.sink)
    }

    constructor (setup: Setup, fd: Option<int>)
      ensures WellFormed(Reading()) && Reading() == FirstReader(setup, fd) && channelFd == fd
      ensures SoFar() == Trace(setup, [])
      ensures fresh(execution) && fresh(protocol) && fresh(channel)
    {
      rootPid, channelFd := setup.pid, fd;
      var e := new ExecutionTracking.ExecutionState();
      e.AddInitialProcess(setup.pid, setup.cwd, setup.rootCommand, setup.ns);
      execution := e;
      protocol := new Protocol.CommandProtocol();
      channel := new Channel.CommandChannelTracker(fd);
      threads := map[];
    }

    /** The body of the loop for one stop. */
    method Handle(stop: Stop) returns (error: Option<CollectError>)
      requires WellFormed(Reading())
      modifies this, execution, protocol, channel
      ensures error.None? ==> OnStop(old(Reading()), old(SoFar()), stop) == Success((Reading(), SoFar()))
      ensures error.Some? ==> OnStop(old(Reading()), old(SoFar()), stop) == Failure(error.value)
    {
      ghost var r, before := Reading(), SoFar();
      if Completes(threads, stop) {
        error := Complete(stop);
        return;
      }
      PlainStop(r, before, stop);
      HandlePlain(stop);
      return None;
    }

    /** Stops other than the second one of a system call. */
    method HandlePlain(stop: Stop)
      requires !Completes(threads, stop)
      modifies this, execution
      ensures threads == ThreadsAfter(old(threads), stop)
      ensures var cs := OtherCallbacks(old(Reading()), stop);
              SoFar() == if cs == [] then old(SoFar()) else Extend(old(SoFar()), cs[0])
    {
      match stop {
        case EndStop(tid, code, signal, ns) =>
          execution.OnProcessExit(tid, code, signal, ns);
          threads := threads - {tid};
        case ExecStop(tid, exe, cwd, ns) =>
          execution.OnProcessExec(tid, exe, cwd, ns);
        case CloneStop(tid, child, event, ns) =>
          var flags := if tid in threads then threads[tid].args[0] else 0;
          execution.OnProcessCreated(tid, child, event, flags, ns);
        case SyscallStop(tid, name, args, _, _, _, _) =>
          threads := threads[tid := ThreadState(true, name, args)];
      }
    }

    /** After the last stop: a record that was begun must have been finished. */
    method End() returns (error: Option<CollectError>)
      ensures error.Some? <==> channelFd.Some? && Reading().parser != Protocol.IDLE
      ensures error.Some? ==> error.value == BadProtocol(Protocol.Incomplete)
    {
      if channelFd.Some? {
        var incomplete := protocol.Finish();
        if incomplete.Some? {
          return Some(BadProtocol(incomplete.value));
        }
      }
      return None;
    }

    /** The second stop of a system call. */
    method Complete(stop: Stop) returns (error: Option<CollectError>)
      requires WellFormed(Reading()) && Completes(threads, stop)
      modifies this, execution, protocol, channel
      ensures error.None? ==> OnStop(old(Reading()), old(SoFar()), stop) == Success((Reading(), SoFar()))
      ensures error.Some? ==> OnStop(old(Reading()), old(SoFar()), stop) == Failure(error.value)
    {
      ghost var before := SoFar();
      var thread := ThreadOf(threads, stop.tid);
      var call := CompletedCall(thread, stop);
      ghost var markers;
      error, markers := Deliver(stop, call);
      ghost var marked := MarkedAll(call.tid, markers, call.ns);
      ApplyMore(before, marked, Called(call, stop.memory));
      if error.Some? {
        return;
      }
      if stop.tid == rootPid {
        channel.Observe(call);
      }
      execution.OnSyscallExit(call, stop.memory);
      threads := threads[stop.tid := thread.(inSyscall := false)];
    }

    /** The markers of a channel write, taken out and handed over. */
    method Deliver(stop: Stop, call: RawSyscall)
      returns (error: Option<CollectError>, ghost markers: seq<CommandMarker>)
      requires WellFormed(Reading()) && Completes(threads, stop)
      requires call == CompletedCall(ThreadOf(threads, stop.tid), stop)
      modifies execution, protocol
      ensures error.None? ==> MarkersAt(old(Reading()), stop) == Success((markers, protocol.Abstract()))
      ensures error.None? ==> Apply(old(SoFar()), MarkedAll(call.tid, markers, call.ns)) == SoFar()
      ensures error.Some? && !error.value.BadMarker? ==> MarkersAt(old(Reading()), stop) == Failure(error.value)
      ensures error.Some? && error.value.BadMarker? ==>
                && MarkersAt(old(Reading()), stop).Success?
                && MarkersAt(old(Reading()), stop).value.0 == markers
                && Apply(old(SoFar()), MarkedAll(call.tid, markers, call.ns)) == Refused(error.value.marker)
    {
      ghost var r, before := Reading(), SoFar();
      if !(call.tid == rootPid && channel.Receives(call) && call.result > 0) {
        Protocol.FeedNothing(r.parser);
        return None, [];
      }
      if call.result > MAXIMUM_COMMAND_WRITE {
        return Some(WriteTooLong), [];
      }
      if stop.buffer.None? {
        return Some(BufferUnreadable), [];
      }
      var consumed := protocol.Consume(stop.buffer.value);
      if consumed.Failure? {
        return Some(BadProtocol(consumed.error)), [];
      }
      markers := consumed.value;
      error := DeliverAll(call.tid, consumed.value, call.ns);
    }

    /** One marker after the other, until one is refused. */
    method DeliverAll(tid: Tid, markers: seq<CommandMarker>, ns: U64) returns (error: Option<CollectError>)
      modifies execution
      ensures error.None? ==> Apply(old(SoFar()), MarkedAll(tid, markers, ns)) == SoFar()
      ensures error.Some? ==>
                && error.value.BadMarker?
                && Apply(old(SoFar()), MarkedAll(tid, markers, ns)) == Refused(error.value.marker)
    {
      ghost var before, all := SoFar(), MarkedAll(tid, markers, ns);
      for i := 0 to |markers|
        invariant Apply(before, all[..i]) == SoFar()
      {
        assert all[..i + 1] == all[..i] + [Marked(tid, markers[i], ns)];
        ApplyMore(before, all[..i], Marked(tid, markers[i], ns));
        var bad := execution.OnCommandMarker(tid, markers[i], ns);
        if bad.Some? {
          RefusalStays(before, all, i + 1);
          return Some(BadMarker(bad.value));
        }
      }
      assert all[..|markers|] == all;
      return None;
    }
  }

  // ---- Whole runs of stops ----

  function FirstReader(setup: Setup, channelFd: Option<int>): Reader {
    Reader(setup.pid, map[], if channelFd.Some? then {channelFd.value} else {}, Protocol.IDLE)
  }

  /** The loop over all stops, until something is thrown. */
  function Collected(setup: Setup, channelFd: Option<int>, stops: seq<Stop>)
    : (c: Result<(Reader, Outcome), CollectError>)
    ensures c.Success? ==> WellFormed(c.value.0) && c.value.1.Accepted?
  {
    if stops == [] then Success((FirstReader(setup, channelFd), Trace(setup, [])))
    else
      var (r, o) :- Collected(setup, channelFd, Front(stops));
      OnStop(r, o, Last(stops))
  }

  /** All callbacks of the stops, whether or not the execution state would accept them. */
  function Heard(setup: Setup, channelFd: Option<int>, stops: seq<Stop>)
    : (h: Result<(seq<Callback>, Reader), CollectError>)
    ensures h.Success? ==> WellFormed(h.value.1)
  {
    if stops == [] then Success(([], FirstReader(setup, channelFd)))
    else
      var (cs, r) :- Heard(setup, channelFd, Front(stops));
      var (more, r1) :- CallbacksAt(r, Last(stops));
      Success((cs + more, r1))
  }

  lemma {:induction false} RefusedIsFinal(o: Outcome, cs: seq<Callback>)
    requires o.Refused?
    ensures Apply(o, cs) == o
  {
    if cs != [] {
      RefusedIsFinal(o, Front(cs));
    }
  }

  /**
   The loop is the execution state run over the callbacks that are heard: it ends well
   exactly if all stops can be read and that run is accepted, and then with that run's state
   and log.
   */
  lemma {:induction false} CollectedIsTrace(setup: Setup, channelFd: Option<int>, stops: seq<Stop>)
    ensures var c, h := Collected(setup, channelFd, stops), Heard(setup, channelFd, stops);
            && (c.Success? <==> h.Success? && Trace(setup, h.value.0).Accepted?)
            && (c.Success? ==> c.value == (h.value.1, Trace(setup, h.value.0)))
            && (h.Success? && c.Failure? ==> c.error == BadMarker(Trace(setup, h.value.0).error))
  {
    if stops != [] {
      CollectedIsTrace(setup, channelFd, Front(stops));
      var h := Heard(setup, channelFd, Front(stops));
      if h.Success? {
        var (cs, r) := h.value;
        var next := CallbacksAt(r, Last(stops));
        if next.Success? {
          TraceTwice(setup, cs, next.value.0);
          if Trace(setup, cs).Refused? {
            RefusedIsFinal(Trace(setup, cs), next.value.0);
          }
        }
      }
    }
  }

  lemma {:induction false} TraceTwice(setup: Setup, a: seq<Callback>, b: seq<Callback>)
    ensures Trace(setup, a + b) == Apply(Trace(setup, a), b)
  {
    TraceIsApply(setup, a);
    TraceIsApply(setup, a + b);
    ApplyTwice(Trace(setup, []), a, b);
  }

  // ---- Markers come through whole, however the shell's writes cut them ----

  function Watched(setup: Setup, channelFd: Option<int>, stops: seq<Stop>): Reader {
    if stops == [] then FirstReader(setup, channelFd)
    else Watch(Watched(setup, channelFd, Front(stops)), Last(stops))
  }

  /** All bytes that reach the channel. */
  function Written(setup: Setup, channelFd: Option<int>, stops: seq<Stop>): Result<string, CollectError> {
    if stops == [] then Success("")
    else
      var before :- Written(setup, channelFd, Front(stops));
      var bytes :- BytesAt(Watched(setup, channelFd, Front(stops)), Last(stops));
      Success(before + bytes)
  }

  function MarkerOf(c: Callback): seq<CommandMarker> {
    if c.Marked? then [c.marker] else []
  }

  function Markers(cs: seq<Callback>): seq<CommandMarker> {
    if cs == [] then [] else Markers(Front(cs)) + MarkerOf(Last(cs))
  }

  lemma {:induction false} MarkersConcat(a: seq<Callback>, b: seq<Callback>)
    ensures Markers(a + b) == Markers(a) + Markers(b)
    decreases |b|
  {
    if b == [] {
      assert a + b == a;
    } else {
      assert Front(a + b) == a + Front(b) && Last(a + b) == Last(b);
      MarkersConcat(a, Front(b));
    }
  }

  lemma {:induction false} MarkersOfMarked(tid: Tid, markers: seq<CommandMarker>, ns: U64)
    ensures Markers(MarkedAll(tid, markers, ns)) == markers
  {
    if markers != [] {
      MarkersOfMarked(tid, Front(markers), ns);
      assert Front(MarkedAll(tid, markers, ns)) == MarkedAll(tid, Front(markers), ns);
    }
  }

  lemma MarkersOfCallbacks(r: Reader, stop: Stop)
    requires WellFormed(r) && CallbacksAt(r, stop).Success?
    ensures Markers(CallbacksAt(r, stop).value.0) == MarkersAt(r, stop).value.0
  {
    var markers, others := MarkersAt(r, stop).value.0, OtherCallbacks(r, stop);
    MarkersConcat(MarkedAll(stop.tid, markers, stop.ns), others);
    MarkersOfMarked(stop.tid, markers, stop.ns);
    if others != [] {
      assert Front(others) == [];
    }
  }

  /** Same descriptors and threads, different parser. */
  predicate SameView(a: Reader, b: Reader) {
    a.(parser := b.parser) == b
  }

  lemma {:induction false} HeardStep(cs: seq<Callback>, r: Reader, view: Reader, written: string, stop: Stop)
    requires WellFormed(r) && SameView(r, view)
    requires Protocol.Feed(Protocol.IDLE, written) == Success((r.parser, Markers(cs)))
    ensures var next, bytes := CallbacksAt(r, stop), BytesAt(view, stop);
            && (next.Success? <==> bytes.Success? && Protocol.Feed(Protocol.IDLE, written + bytes.value).Success?)
            && (next.Success? ==>
                  && SameView(next.value.1, Watch(view, stop))
                  && Protocol.Feed(Protocol.IDLE, written + bytes.value)
                     == Success((next.value.1.parser, Markers(cs + next.value.0))))
  {
    var bytes := BytesAt(view, stop);
    assert bytes == BytesAt(r, stop);
    if bytes.Success? {
      Protocol.FeedTwice(Protocol.IDLE, written, bytes.value);
      if CallbacksAt(r, stop).Success? {
        MarkersOfCallbacks(r, stop);
        MarkersConcat(cs, CallbacksAt(r, stop).value.0);
      }
    }
  }

  /**
   The markers that are heard, or the failure to hear, are those of the channel's whole byte
   stream: the shell may spread its records over any writes, on any descriptor that leads to
   the channel, with any other calls and tasks in between.
   */
  lemma {:induction false} HeardAsWritten(setup: Setup, channelFd: Option<int>, stops: seq<Stop>)
    ensures var h, w := Heard(setup, channelFd, stops), Written(setup, channelFd, stops);
            && (h.Success? ==> SameView(h.value.1, Watched(setup, channelFd, stops)))
            && (h.Success? <==> w.Success? && Protocol.Feed(Protocol.IDLE, w.value).Success?)
            && (h.Success? ==>
                  Protocol.Feed(Protocol.IDLE, w.value) == Success((h.value.1.parser, Markers(h.value.0))))
  {
    if stops == [] {
      Protocol.FeedNothing(Protocol.IDLE);
    } else {
      HeardAsWritten(setup, channelFd, Front(stops));
      var h, w := Heard(setup, channelFd, Front(stops)), Written(setup, channelFd, Front(stops));
      var view := Watched(setup, channelFd, Front(stops));
      if h.Success? {
        HeardStep(h.value.0, h.value.1, view, w.value, Last(stops));
      } else if w.Success? && BytesAt(view, Last(stops)).Success? {
        Protocol.FeedTwice(Protocol.IDLE, w.value, BytesAt(view, Last(stops)).value);
      }
    }
  }

  /** Only the shell's own thread is listened to. */
  lemma {:induction false} OnlyTheShellIsHeard(setup: Setup, channelFd: Option<int>, stops: seq<Stop>)
    requires Heard(setup, channelFd, stops).Success?
    ensures Heard(setup, channelFd, stops).value.1.root == setup.pid
    ensures forall c <- Heard(setup, channelFd, stops).value.0 :: c.Marked? ==> c.tid == setup.pid
  {
    if stops != [] {
      OnlyTheShellIsHeard(setup, channelFd, Front(stops));
      var (_, r) := Heard(setup, channelFd, Front(stops)).value;
      var stop := Last(stops);
      if BytesAt(r, stop).value == "" {
        Protocol.FeedNothing(r.parser);
      }
      var markers := MarkersAt(r, stop).value.0;
      forall c <- MarkedAll(stop.tid, markers, stop.ns) ensures c.tid == setup.pid {
        assert markers != [];
      }
    }
  }

  lemma NoAliasStop(r: Reader, stop: Stop)
    requires WellFormed(r) && r.aliases == {}
    ensures CallbacksAt(r, stop).Success? && WellFormed(CallbacksAt(r, stop).value.1)
    ensures CallbacksAt(r, stop).value.1.aliases == {}
    ensures forall c <- CallbacksAt(r, stop).value.0 :: !c.Marked?
  {
    Protocol.FeedNothing(r.parser);
    assert BytesAt(r, stop) == Success("");
    assert MarkersAt(r, stop) == Success(([], r.parser));
  }

  /** Without a channel, as in command mode, every stop can be read and no marker is heard. */
  lemma {:induction false} NoChannelNoMarkers(setup: Setup, stops: seq<Stop>)
    ensures Heard(setup, None, stops).Success? && Heard(setup, None, stops).value.1.aliases == {}
    ensures forall c <- Heard(setup, None, stops).value.0 :: !c.Marked?
  {
    if stops != [] {
      NoChannelNoMarkers(setup, Front(stops));
      NoAliasStop(Heard(setup, None, Front(stops)).value.1, Last(stops));
    }
  }

  // ---- Entry and exit stops are paired thread by thread ----

  function StopOf(stop: Stop, tid: int): seq<Stop> {
    if stop.SyscallStop? && stop.tid == tid then [stop] else []
  }

  function StopsOf(stops: seq<Stop>, tid: int): seq<Stop> {
    if stops == [] then []
    else
      StopsOf(Front(stops), tid) + StopOf(Last(stops), tid)
  }

  function CallOf(c: Callback, tid: int): seq<RawSyscall> {
    if c.Called? && c.call.tid == tid then [c.call] else []
  }

  function CallsOf(cs: seq<Callback>, tid: int): seq<RawSyscall> {
    if cs == [] then [] else CallsOf(Front(cs), tid) + CallOf(Last(cs), tid)
  }

  /** Number and arguments come from the entry stop, result and time from the exit stop. */
  function CallBetween(entry: Stop, exit: Stop): RawSyscall
    requires entry.SyscallStop? && exit.SyscallStop?
  {
    RawSyscall(exit.tid, entry.name, entry.args, exit.rax, exit.ns)
  }

  lemma {:induction false} CallsConcat(a: seq<Callback>, b: seq<Callback>, tid: int)
    ensures CallsOf(a + b, tid) == CallsOf(a, tid) + CallsOf(b, tid)
    decreases |b|
  {
    if b == [] {
      assert a + b == a;
    } else {
      assert Front(a + b) == a + Front(b) && Last(a + b) == Last(b);
      CallsConcat(a, Front(b), tid);
    }
  }

  lemma {:induction false} MarkedAreNoCalls(cs: seq<Callback>, tid: int)
    requires forall c <- cs :: c.Marked?
    ensures CallsOf(cs, tid) == []
  {
    if cs != [] {
      assert Last(cs) in cs && forall c <- Front(cs) :: c in cs;
      MarkedAreNoCalls(Front(cs), tid);
    }
  }

  lemma {:induction false} CallsOfOne(c: Callback, tid: int)
    ensures CallsOf([c], tid) == CallOf(c, tid)
  {
    assert Front([c]) == [] && Last([c]) == c;
  }

  /** The call that a stop completes for a thread. */
  function CallAt(r: Reader, stop: Stop, tid: int): seq<RawSyscall> {
    if Completes(r.threads, stop) && stop.tid == tid then [CompletedCall(ThreadOf(r.threads, tid), stop)] else []
  }

  lemma {:induction false} CallsOfOthers(r: Reader, stop: Stop, tid: int)
    ensures CallsOf(OtherCallbacks(r, stop), tid) == CallAt(r, stop, tid)
  {
    var others := OtherCallbacks(r, stop);
    if others != [] {
      assert others == [others[0]];
      CallsOfOne(others[0], tid);
    }
  }

  lemma {:induction false} CallsBehindMarkers(marked: seq<Callback>, others: seq<Callback>, tid: int)
    requires forall c <- marked :: c.Marked?
    ensures CallsOf(marked + others, tid) == CallsOf(others, tid)
  {
    CallsConcat(marked, others, tid);
    MarkedAreNoCalls(marked, tid);
  }

  lemma {:induction false} CallsOfCallbacks(r: Reader, stop: Stop, tid: int)
    requires WellFormed(r) && CallbacksAt(r, stop).Success?
    ensures CallsOf(CallbacksAt(r, stop).value.0, tid) == CallAt(r, stop, tid)
  {
    CallsBehindMarkers(MarkedAll(stop.tid, MarkersAt(r, stop).value.0, stop.ns), OtherCallbacks(r, stop), tid);
    CallsOfOthers(r, stop, tid);
  }

  /** The calls are the pairs of the stops; an unpaired last stop is the thread's open entry. */
  ghost predicate Paired(stops: seq<Stop>, calls: seq<RawSyscall>, thread: ThreadState) {
    && (forall s <- stops :: s.SyscallStop?)
    && |calls| == |stops| / 2
    && (forall k | 0 <= k < |calls| :: calls[k] == CallBetween(stops[2 * k], stops[2 * k + 1]))
    && thread.inSyscall == (|stops| % 2 == 1)
    && (thread.inSyscall ==>
          thread.name == stops[|stops| - 1].name && thread.args == stops[|stops| - 1].args)
  }

  lemma PairedOneMore(stops: seq<Stop>, calls: seq<RawSyscall>, thread: ThreadState, stop: Stop)
    requires Paired(stops, calls, thread) && stop.SyscallStop?
    ensures if thread.inSyscall then
              Paired(stops + [stop], calls + [CompletedCall(thread, stop)], thread.(inSyscall := false))
            else Paired(stops + [stop], calls, ThreadState(true, stop.name, stop.args))
  {
    var all := stops + [stop];
    forall k | 0 <= k < |calls| ensures all[2 * k] == stops[2 * k] && all[2 * k + 1] == stops[2 * k + 1] {
    }
  }

  lemma PairsStep(r: Reader, stops: seq<Stop>, calls: seq<RawSyscall>, stop: Stop, tid: int)
    requires Paired(stops, calls, ThreadOf(r.threads, tid)) && !(stop.EndStop? && stop.tid == tid)
    ensures Paired(stops + StopOf(stop, tid), calls + CallAt(r, stop, tid),
                   ThreadOf(ThreadsAfter(r.threads, stop), tid))
  {
    assert calls + [] == calls;
    if StopOf(stop, tid) == [] {
      assert stops + [] == stops;
    } else {
      PairedOneMore(stops, calls, ThreadOf(r.threads, tid), stop);
    }
  }

  /**
   While a thread lives, the calls reported for it are its own stops taken two by two,
   whatever the other threads do in between.
   */
  lemma {:induction false} CallsArePairs(setup: Setup, channelFd: Option<int>, stops: seq<Stop>, tid: int)
    requires Heard(setup, channelFd, stops).Success?
    requires forall s <- stops :: s.EndStop? ==> s.tid != tid
    ensures var (cs, r) := Heard(setup, channelFd, stops).value;
            Paired(StopsOf(stops, tid), CallsOf(cs, tid), ThreadOf(r.threads, tid))
  {
    if stops != [] {
      assert Last(stops) in stops && forall s <- Front(stops) :: s in stops;
      CallsArePairs(setup, channelFd, Front(stops), tid);
      var (cs, r) := Heard(setup, channelFd, Front(stops)).value;
      PairsStep(r, StopsOf(Front(stops), tid), CallsOf(cs, tid), Last(stops), tid);
      CallsOfCallbacks(r, Last(stops), tid);
      CallsConcat(cs, CallbacksAt(r, Last(stops)).value.0, tid);
    }
  }

  /** A thread's life begins with its first stop, or again behind its end if its id is used once more. */
  predicate BeginsLife(start: seq<Stop>, tid: int) {
    start == [] || (Last(start).EndStop? && Last(start).tid == tid)
  }

  lemma {:induction false} LifeBeginsIdle(setup: Setup, channelFd: Option<int>, start: seq<Stop>, tid: int)
    requires Heard(setup, channelFd, start).Success? && BeginsLife(start, tid)
    ensures ThreadOf(Heard(setup, channelFd, start).value.1.threads, tid) == IDLE_THREAD
  {
    if start != [] {
      var r := Heard(setup, channelFd, Front(start)).value.1;
      assert tid !in ThreadsAfter(r.threads, Last(start));
    }
  }

  lemma {:induction false} OneMoreStop(setup: Setup, channelFd: Option<int>, stops: seq<Stop>, tid: int)
    requires stops != [] && Heard(setup, channelFd, stops).Success?
    ensures Heard(setup, channelFd, Front(stops)).Success?
    ensures var (cs, r), (cs1, r1) := Heard(setup, channelFd, Front(stops)).value, Heard(setup, channelFd, stops).value;
            && CallsOf(cs1, tid) == CallsOf(cs, tid) + CallAt(r, Last(stops), tid)
            && r1.threads == ThreadsAfter(r.threads, Last(stops))
  {
    var (cs, r) := Heard(setup, channelFd, Front(stops)).value;
    CallsOfCallbacks(r, Last(stops), tid);
    CallsConcat(cs, CallbacksAt(r, Last(stops)).value.0, tid);
  }

  lemma {:induction false} NextStopPairs(
    setup: Setup, channelFd: Option<int>, stops: seq<Stop>, own: seq<Stop>, before: seq<RawSyscall>,
    calls: seq<RawSyscall>, tid: int)
    requires stops != [] && Heard(setup, channelFd, stops).Success?
    requires Heard(setup, channelFd, Front(stops)).Success? && !(Last(stops).EndStop? && Last(stops).tid == tid)
    requires CallsOf(Heard(setup, channelFd, Front(stops)).value.0, tid) == before + calls
    requires Paired(own, calls, ThreadOf(Heard(setup, channelFd, Front(stops)).value.1.threads, tid))
    ensures var (cs, r), more := Heard(setup, channelFd, stops).value,
                                 CallAt(Heard(setup, channelFd, Front(stops)).value.1, Last(stops), tid);
            && CallsOf(cs, tid) == before + (calls + more)
            && Paired(own + StopOf(Last(stops), tid), calls + more, ThreadOf(r.threads, tid))
  {
    OneMoreStop(setup, channelFd, stops, tid);
    var r := Heard(setup, channelFd, Front(stops)).value.1;
    PairsStep(r, own, calls, Last(stops), tid);
    assert (before + calls) + CallAt(r, Last(stops), tid) == before + (calls + CallAt(r, Last(stops), tid));
  }

  /** The same for every life: the calls that a life adds are the stops of that life taken two by two. */
  lemma {:induction false} LivesArePairs(
    setup: Setup, channelFd: Option<int>, start: seq<Stop>, since: seq<Stop>, tid: int) returns (calls: seq<RawSyscall>)
    requires Heard(setup, channelFd, start + since).Success? && BeginsLife(start, tid)
    requires forall s <- since :: s.EndStop? ==> s.tid != tid
    ensures Heard(setup, channelFd, start).Success?
    ensures CallsOf(Heard(setup, channelFd, start + since).value.0, tid) ==
            CallsOf(Heard(setup, channelFd, start).value.0, tid) + calls
    ensures Paired(StopsOf(since, tid), calls, ThreadOf(Heard(setup, channelFd, start + since).value.1.threads, tid))
    decreases |since|
  {
    calls := [];
    if since == [] {
      assert start + since == start;
      LifeBeginsIdle(setup, channelFd, start, tid);
    } else {
      var all, last := start + since, Last(since);
      assert Front(all) == start + Front(since) && Last(all) == last;
      assert last in since && forall s <- Front(since) :: s in since;
      calls := LivesArePairs(setup, channelFd, start, Front(since), tid);
      var before := CallsOf(Heard(setup, channelFd, start).value.0, tid);
      NextStopPairs(setup, channelFd, all, StopsOf(Front(since), tid), before, calls, tid);
      calls := calls + CallAt(Heard(setup, channelFd, Front(all)).value.1, last, tid);
    }
  }

  // ---- Which writes are listened to ----

  /** The finished calls, each with the descriptors that it allocated. */
  predicate Finishes(fs: seq<Channel.Finished>, calls: seq<RawSyscall>) {
    |fs| == |calls| && forall k | 0 <= k < |fs| :: fs[k].call == calls[k]
  }

  lemma {:induction false} AliasesStep(r: Reader, stop: Stop, start: set<int>, fs: seq<Channel.Finished>, calls: seq<RawSyscall>)
    requires WellFormed(r) && Finishes(fs, calls + CallAt(r, stop, r.root))
    requires r.aliases == Channel.ObservedAll(start, fs[..|calls|])
    ensures AliasesAfter(r, stop) == Channel.ObservedAll(start, fs)
  {
    var more := CallAt(r, stop, r.root);
    if more == [] {
      assert fs[..|calls|] == fs;
    } else {
      assert fs[|fs| - 1].call == (calls + more)[|calls|] == more[0];
    }
  }

  /** The descriptors that are followed are those that the shell's own calls leave. */
  lemma {:induction false} AliasesFollowCalls(
    setup: Setup, fd: int, stops: seq<Stop>, fs: seq<Channel.Finished>)
    requires Heard(setup, Some(fd), stops).Success?
    requires Finishes(fs, CallsOf(Heard(setup, Some(fd), stops).value.0, setup.pid))
    ensures Heard(setup, Some(fd), stops).value.1.aliases == Channel.ObservedAll({fd}, fs)
  {
    if stops != [] {
      var (cs, r) := Heard(setup, Some(fd), Front(stops)).value;
      var calls := CallsOf(cs, setup.pid);
      OnlyTheShellIsHeard(setup, Some(fd), Front(stops));
      CallsOfCallbacks(r, Last(stops), setup.pid);
      CallsConcat(cs, CallbacksAt(r, Last(stops)).value.0, setup.pid);
      AliasesFollowCalls(setup, fd, Front(stops), fs[..|calls|]);
      AliasesStep(r, Last(stops), {fd}, fs, calls);
    }
  }

  /**
   If the kernel allows the shell's calls, the collector listens to a write exactly if its
   descriptor then leads to the channel's open file.
   */
  lemma {:induction false} ListensExactly(
    setup: Setup, fd: int, stops: seq<Stop>, fs: seq<Channel.Finished>,
    table: Channel.Table, next: nat, write: RawSyscall)
    requires Heard(setup, Some(fd), stops).Success?
    requires Finishes(fs, CallsOf(Heard(setup, Some(fd), stops).value.0, setup.pid))
    requires fd in table && table[fd] <= next && Channel.Leading(table, table[fd]) == {fd}
    requires Channel.KernelRun(table, next, fs).Some? && write.name.Write?
    requires Channel.Followed(table, next, table[fd], fs)
    ensures var after := Channel.KernelRun(table, next, fs).value;
            Channel.Receiving(Heard(setup, Some(fd), stops).value.1.aliases, write) <==>
            Fd(write, 0) in after && after[Fd(write, 0)] == table[fd]
  {
    AliasesFollowCalls(setup, fd, stops, fs);
    Channel.ReceivesExactly(table, next, fs, fd, write);
  }

  // ---- What a stop leads to ----

  /**
   Bytes are taken from a stop exactly if it completes a write of the shell to a channel
   descriptor that has written something; more than 65 KiB or an unreadable buffer is an error.
   */
  lemma BytesExactly(r: Reader, stop: Stop)
    ensures var listens := Completes(r.threads, stop) && stop.tid == r.root && stop.rax > 0
                           && ThreadOf(r.threads, stop.tid).name.Write?
                           && ToI32(ThreadOf(r.threads, stop.tid).args[0]) in r.aliases;
            BytesAt(r, stop) ==
            if !listens then Success("")
            else if stop.rax > 66560 then Failure(WriteTooLong)
            else if stop.buffer == None then Failure(BufferUnreadable)
            else Success(stop.buffer.value)
  {
  }

  /** If the kernel allows the shell's calls, its readable writes are taken exactly if they reach the channel. */
  lemma {:induction false} ShellWriteIsRead(
    setup: Setup, fd: int, stops: seq<Stop>, fs: seq<Channel.Finished>,
    table: Channel.Table, next: nat, stop: Stop)
    requires Heard(setup, Some(fd), stops).Success?
    requires Finishes(fs, CallsOf(Heard(setup, Some(fd), stops).value.0, setup.pid))
    requires fd in table && table[fd] <= next && Channel.Leading(table, table[fd]) == {fd}
    requires Channel.KernelRun(table, next, fs).Some? && Channel.Followed(table, next, table[fd], fs)
    requires var r := Heard(setup, Some(fd), stops).value.1;
             && Completes(r.threads, stop) && ThreadOf(r.threads, stop.tid).name.Write?
             && stop.tid == setup.pid && 0 < stop.rax <= 66560 && stop.buffer.Some?
    ensures var r, after := Heard(setup, Some(fd), stops).value.1, Channel.KernelRun(table, next, fs).value;
            var to := ToI32(ThreadOf(r.threads, stop.tid).args[0]);
            BytesAt(r, stop) == Success(if to in after && after[to] == table[fd] then stop.buffer.value else "")
  {
    var r := Heard(setup, Some(fd), stops).value.1;
    OnlyTheShellIsHeard(setup, Some(fd), stops);
    BytesExactly(r, stop);
    ListensExactly(setup, fd, stops, fs, table, next, CompletedCall(ThreadOf(r.threads, stop.tid), stop));
  }

  function LifeStop(stop: Stop): seq<Stop> {
    if stop.SyscallStop? then [] else [stop]
  }

  function LifeStops(stops: seq<Stop>): seq<Stop> {
    if stops == [] then [] else LifeStops(Front(stops)) + LifeStop(Last(stops))
  }

  function LifeCallback(c: Callback): seq<Callback> {
    if c.Marked? || c.Called? then [] else [c]
  }

  function LifeCallbacks(cs: seq<Callback>): seq<Callback> {
    if cs == [] then [] else LifeCallbacks(Front(cs)) + LifeCallback(Last(cs))
  }

  /** The callback says of a task's beginning, program or end what the stop said. */
  predicate SameLife(stop: Stop, c: Callback) {
    match stop
    case EndStop(tid, exitCode, termSignal, ns) => c == Exited(tid, exitCode, termSignal, ns)
    case ExecStop(tid, exeLink, cwdLink, ns) => c == Execed(tid, exeLink, cwdLink, ns)
    case CloneStop(tid, child, event, ns) =>
      c.Created? && c.tid == tid && c.child == child && c.event == event && c.ns == ns
    case SyscallStop(_, _, _, _, _, _, _) => false
  }

  ghost predicate SameLives(stops: seq<Stop>, cs: seq<Callback>) {
    |stops| == |cs| && forall i | 0 <= i < |stops| :: SameLife(stops[i], cs[i])
  }

  lemma {:induction false} LifeConcat(a: seq<Callback>, b: seq<Callback>)
    ensures LifeCallbacks(a + b) == LifeCallbacks(a) + LifeCallbacks(b)
    decreases |b|
  {
    if b == [] {
      assert a + b == a;
    } else {
      assert Front(a + b) == a + Front(b) && Last(a + b) == Last(b);
      LifeConcat(a, Front(b));
    }
  }

  lemma {:induction false} MarkedHaveNoLife(cs: seq<Callback>)
    requires forall c <- cs :: c.Marked?
    ensures LifeCallbacks(cs) == []
  {
    if cs != [] {
      assert Last(cs) in cs && forall c <- Front(cs) :: c in cs;
      MarkedHaveNoLife(Front(cs));
    }
  }

  lemma {:induction false} LifeOfOne(c: Callback)
    ensures LifeCallbacks([c]) == LifeCallback(c)
  {
    assert Front([c]) == [] && Last([c]) == c;
  }

  lemma {:induction false} OtherLives(r: Reader, stop: Stop)
    ensures SameLives(LifeStop(stop), LifeCallbacks(OtherCallbacks(r, stop)))
  {
    var others := OtherCallbacks(r, stop);
    if others != [] {
      assert others == [others[0]];
      LifeOfOne(others[0]);
    }
  }

  lemma {:induction false} StopLives(r: Reader, stop: Stop)
    requires WellFormed(r) && CallbacksAt(r, stop).Success?
    ensures SameLives(LifeStop(stop), LifeCallbacks(CallbacksAt(r, stop).value.0))
  {
    var marked, others := MarkedAll(stop.tid, MarkersAt(r, stop).value.0, stop.ns), OtherCallbacks(r, stop);
    LifeConcat(marked, others);
    MarkedHaveNoLife(marked);
    OtherLives(r, stop);
    assert [] + LifeCallbacks(others) == LifeCallbacks(others);
  }

  lemma SameLivesConcat(stops: seq<Stop>, cs: seq<Callback>, moreStops: seq<Stop>, more: seq<Callback>)
    requires SameLives(stops, cs) && SameLives(moreStops, more)
    ensures SameLives(stops + moreStops, cs + more)
  {
  }

  /** Beginnings, programs and ends of tasks are heard as they were stopped for, in the same order. */
  lemma {:induction false} LivesAreHeard(setup: Setup, channelFd: Option<int>, stops: seq<Stop>)
    requires Heard(setup, channelFd, stops).Success?
    ensures SameLives(LifeStops(stops), LifeCallbacks(Heard(setup, channelFd, stops).value.0))
  {
    if stops != [] {
      LivesAreHeard(setup, channelFd, Front(stops));
      var (cs, r) := Heard(setup, channelFd, Front(stops)).value;
      var more := CallbacksAt(r, Last(stops)).value.0;
      StopLives(r, Last(stops));
      LifeConcat(cs, more);
      SameLivesConcat(LifeStops(Front(stops)), LifeCallbacks(cs), LifeStop(Last(stops)), LifeCallbacks(more));
    }
  }

  /** The flags of a creation are the first argument of the call in which the creator is stopped. */
  lemma {:induction false} CloneTakesFlags(setup: Setup, channelFd: Option<int>, stops: seq<Stop>, clone: Stop)
    requires Heard(setup, channelFd, stops).Success? && clone.CloneStop?
    requires forall s <- stops :: s.EndStop? ==> s.tid != clone.tid
    requires |StopsOf(stops, clone.tid)| % 2 == 1
    ensures forall s <- StopsOf(stops, clone.tid) :: s.SyscallStop?
    ensures var own := StopsOf(stops, clone.tid);
            OtherCallbacks(Heard(setup, channelFd, stops).value.1, clone) ==
            [Created(clone.tid, clone.child, clone.event, own[|own| - 1].args[0], clone.ns)]
  {
    CallsArePairs(setup, channelFd, stops, clone.tid);
  }
}
