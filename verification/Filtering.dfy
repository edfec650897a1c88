/**
 What the queries of show answer for one command: what they would answer for the whole run if
 only the command's rows were there, counted row by row; and how the answers add up.
 */
module Filtering {
  import opened Wrappers
  import opened Text
  import opened Events
  import opened Capsule
  import opened Queries

  // ---- The rows of a command ----

  /** A row passes the filter for a command exactly if it carries that command; all rows pass no filter. */
  lemma {:induction false} PassingIsCarrying(rows: seq<EventRow>, command: Option<I64>)
    ensures forall row :: row in Passing(rows, Only(command)) <==> row in rows && row.command == command
    ensures Passing(rows, All) == rows
  {
    PassingMembers(rows, Only(command));
    AllPassing(rows);
  }

  lemma {:induction false} AllPassing(rows: seq<EventRow>)
    ensures Passing(rows, All) == rows
  {
    if rows != [] {
      AllPassing(rows[..|rows| - 1]);
    }
  }

  lemma {:induction false} PassingOneMore(rows: seq<EventRow>, row: EventRow, filter: Filter)
    ensures Passing(rows + [row], filter) ==
            if Passes(row, filter) then Passing(rows, filter) + [row] else Passing(rows, filter)
  {
    assert (rows + [row])[..|rows|] == rows;
  }

  // ---- Counting ----

  function One(row: EventRow, kind: EventType, resource: string): seq<EventRow> {
    if row.kind == kind && row.resource == resource then [row] else []
  }

  /** The rows of this kind and resource. */
  function Of(rows: seq<EventRow>, kind: EventType, resource: string): seq<EventRow> {
    if rows == [] then [] else Of(rows[..|rows| - 1], kind, resource) + One(rows[|rows| - 1], kind, resource)
  }

  /** The bytes of calls that moved some. */
  function BytesOf(rows: seq<EventRow>): nat {
    if rows == [] then 0
    else
      var r := rows[|rows| - 1].result;
      BytesOf(rows[..|rows| - 1]) + (if r > 0 then r else 0)
  }

  function Succeeded(rows: seq<EventRow>): nat {
    if rows == [] then 0 else Succeeded(rows[..|rows| - 1]) + (if rows[|rows| - 1].errno == 0 then 1 else 0)
  }

  function Failed(rows: seq<EventRow>): nat {
    if rows == [] then 0 else Failed(rows[..|rows| - 1]) + (if rows[|rows| - 1].errno > 0 then 1 else 0)
  }

  lemma {:induction false} OfOneMore(rows: seq<EventRow>, row: EventRow, kind: EventType, resource: string)
    ensures Of(rows + [row], kind, resource) == Of(rows, kind, resource) + One(row, kind, resource)
  {
    assert (rows + [row])[..|rows|] == rows;
  }

  lemma {:induction false} CountsOneMore(rows: seq<EventRow>, row: EventRow)
    ensures BytesOf(rows + [row]) == BytesOf(rows) + (if row.result > 0 then row.result else 0)
    ensures Succeeded(rows + [row]) == Succeeded(rows) + (if row.errno == 0 then 1 else 0)
    ensures Failed(rows + [row]) == Failed(rows) + (if row.errno > 0 then 1 else 0)
  {
    assert (rows + [row])[..|rows|] == rows;
  }

  /** What a total counts: the rows of this kind and resource among those that pass. */
  predicate TotalCounts(rows: seq<EventRow>, kind: EventType, resource: string, filter: Filter, counted: seq<EventRow>) {
    var sel := Selection(kind, resource, filter);
    && Total(rows, sel, Calls) == |counted|
    && Total(rows, sel, BytesMoved) == BytesOf(counted)
    && Total(rows, sel, Successes) == Succeeded(counted)
    && Total(rows, sel, Failures) == Failed(counted)
  }

  lemma {:induction false} CountsStep(
    rows: seq<EventRow>, row: EventRow, kind: EventType, resource: string, filter: Filter, counted: seq<EventRow>)
    requires TotalCounts(rows, kind, resource, filter, counted)
    ensures TotalCounts(rows + [row], kind, resource, filter,
                        if Selects(Selection(kind, resource, filter), row) then counted + [row] else counted)
  {
    var sel := Selection(kind, resource, filter);
    TotalOneMore(rows, row, sel, Calls);
    TotalOneMore(rows, row, sel, BytesMoved);
    TotalOneMore(rows, row, sel, Successes);
    TotalOneMore(rows, row, sel, Failures);
    CountsOneMore(counted, row);
  }

  lemma {:induction false} TotalsCountRows(rows: seq<EventRow>, kind: EventType, resource: string, filter: Filter)
    ensures TotalCounts(rows, kind, resource, filter, Of(Passing(rows, filter), kind, resource))
  {
    if rows != [] {
      var before, row := rows[..|rows| - 1], rows[|rows| - 1];
      assert rows == before + [row];
      TotalsCountRows(before, kind, resource, filter);
      CountsStep(before, row, kind, resource, filter, Of(Passing(before, filter), kind, resource));
      PassingOneMore(before, row, filter);
      OfOneMore(Passing(before, filter), row, kind, resource);
      assert Of(Passing(before, filter), kind, resource) + [] == Of(Passing(before, filter), kind, resource);
    }
  }

  lemma {:induction false} ResourcesPass(rows: seq<EventRow>, kind: EventType, filter: Filter)
    ensures Resources(rows, kind, filter) == Resources(Passing(rows, filter), kind, All)
  {
    PassingMembers(rows, filter);
    forall r | r in Resources(rows, kind, filter) ensures r in Resources(Passing(rows, filter), kind, All) {
      var row :| row in rows && row.kind == kind && Passes(row, filter) && row.resource == r;
      assert row in Passing(rows, filter);
    }
  }

  lemma {:induction false} ResourceIsCounted(rows: seq<EventRow>, kind: EventType, resource: string)
    ensures resource in Resources(rows, kind, All) <==> Of(rows, kind, resource) != []
  {
    if rows != [] {
      var before, row := rows[..|rows| - 1], rows[|rows| - 1];
      assert rows == before + [row];
      ResourceIsCounted(before, kind, resource);
      ResourcesOneMore(before, row, kind, All);
    }
  }

  // ---- The answers, counted ----

  /** Files: for every path with rows of the command, their number and the bytes they moved. */
  lemma {:induction false} FilesAreCounted(rows: seq<EventRow>, kind: EventType, filter: Filter, path: string)
    ensures var answer, counted := TransfersFromEvents(rows, kind, filter), Of(Passing(rows, filter), kind, path);
            && (path in answer <==> counted != [])
            && (path in answer ==> answer[path].calls == |counted| && answer[path].bytes == BytesOf(counted))
  {
    TotalsCountRows(rows, kind, path, filter);
    ResourcesPass(rows, kind, filter);
    ResourceIsCounted(Passing(rows, filter), kind, path);
  }

  /** Local IPC: the attempts, and how many of them succeeded and failed. */
  lemma {:induction false} LocalConnectsAreCounted(rows: seq<EventRow>, filter: Filter, resource: string)
    ensures var answer := LocalConnects(rows, filter);
            var counted := Of(Passing(rows, filter), LocalIpcConnect, resource);
            && (resource in answer <==> counted != [])
            && (resource in answer ==>
                  && answer[resource].calls == |counted|
                  && answer[resource].successes == Succeeded(counted)
                  && answer[resource].failures == Failed(counted))
  {
    TotalsCountRows(rows, LocalIpcConnect, resource, filter);
    ResourcesPass(rows, LocalIpcConnect, filter);
    ResourceIsCounted(Passing(rows, filter), LocalIpcConnect, resource);
  }

  /** No other row is later, and of the rows at the same time this is the last. */
  predicate LatestAt(counted: seq<EventRow>, i: nat)
    requires i < |counted|
  {
    forall j | 0 <= j < |counted| :: counted[j].ns < counted[i].ns || (counted[j].ns == counted[i].ns && j <= i)
  }

  predicate IsLatest(counted: seq<EventRow>, row: EventRow) {
    exists i | 0 <= i < |counted| :: counted[i] == row && LatestAt(counted, i)
  }

  lemma LatestMore(counted: seq<EventRow>, was: EventRow, row: EventRow)
    requires IsLatest(counted, was)
    ensures IsLatest(counted + [row], if was.ns <= row.ns then row else was)
  {
    var all := counted + [row];
    var i :| 0 <= i < |counted| && counted[i] == was && LatestAt(counted, i);
    if was.ns <= row.ns {
      assert all[|counted|] == row && LatestAt(all, |counted|);
    } else {
      assert all[i] == was && LatestAt(all, i);
    }
  }

  lemma LatestAlone(row: EventRow)
    ensures IsLatest([row], row)
  {
    assert [row][0] == row && LatestAt([row], 0);
  }

  /** The row that the errno subquery of show_network finds. */
  function LatestRow(rows: seq<EventRow>, sel: Selection): Option<EventRow> {
    match Latest(rows, sel)
    case None => None
    case Some(i) => Some(rows[i])
  }

  lemma {:induction false} LatestRowOneMore(rows: seq<EventRow>, row: EventRow, sel: Selection)
    ensures LatestRow(rows + [row], sel) ==
            var before := LatestRow(rows, sel);
            if Selects(sel, row) && (before.None? || before.value.ns <= row.ns) then Some(row) else before
  {
    assert (rows + [row])[..|rows|] == rows;
  }

  lemma {:induction false} LatestRowIsLatest(rows: seq<EventRow>, kind: EventType, resource: string, filter: Filter)
    ensures var latest := LatestRow(rows, Selection(kind, resource, filter));
            var counted := Of(Passing(rows, filter), kind, resource);
            && (latest.None? <==> counted == [])
            && (latest.Some? ==> IsLatest(counted, latest.value))
  {
    if rows != [] {
      var before, row := rows[..|rows| - 1], rows[|rows| - 1];
      var sel, counted := Selection(kind, resource, filter), Of(Passing(before, filter), kind, resource);
      assert rows == before + [row];
      LatestRowIsLatest(before, kind, resource, filter);
      LatestRowOneMore(before, row, sel);
      PassingOneMore(before, row, filter);
      OfOneMore(Passing(before, filter), row, kind, resource);
      if Selects(sel, row) {
        if counted == [] {
          assert counted + [row] == [row];
          LatestAlone(row);
        } else {
          LatestMore(counted, LatestRow(before, sel).value, row);
        }
      } else {
        assert counted + [] == counted;
      }
    }
  }

  /** Network: the attempts, how many succeeded and failed, and the error number of the latest one. */
  lemma {:induction false} ConnectsAreCounted(rows: seq<EventRow>, filter: Filter, endpoint: string)
    ensures var answer := ConnectsFromEvents(rows, filter);
            var counted := Of(Passing(rows, filter), NetworkConnect, endpoint);
            && (endpoint in answer <==> counted != [])
            && (endpoint in answer ==>
                  && answer[endpoint].connects == |counted|
                  && answer[endpoint].successes == Succeeded(counted)
                  && answer[endpoint].failures == Failed(counted)
                  && exists row :: IsLatest(counted, row) && answer[endpoint].lastErrno == row.errno)
  {
    TotalsCountRows(rows, NetworkConnect, endpoint, filter);
    ResourcesPass(rows, NetworkConnect, filter);
    ResourceIsCounted(Passing(rows, filter), NetworkConnect, endpoint);
    LatestRowIsLatest(rows, NetworkConnect, endpoint, filter);
    var latest := LatestRow(rows, Selection(NetworkConnect, endpoint, filter));
    assert latest.Some? ==> IsLatest(Of(Passing(rows, filter), NetworkConnect, endpoint), latest.value);
  }

  function OneFailing(row: EventRow, f: Failing): seq<EventRow> {
    if row.resource == f.resource && row.kind == f.kind && row.errno == f.errno then [row] else []
  }

  function FailingRows(rows: seq<EventRow>, f: Failing): seq<EventRow> {
    if rows == [] then [] else FailingRows(rows[..|rows| - 1], f) + OneFailing(rows[|rows| - 1], f)
  }

  lemma {:induction false} FailingOneMore(rows: seq<EventRow>, row: EventRow, f: Failing)
    ensures FailingRows(rows + [row], f) == FailingRows(rows, f) + OneFailing(row, f)
  {
    assert (rows + [row])[..|rows|] == rows;
  }

  lemma {:induction false} TimesFailedCounts(rows: seq<EventRow>, f: Failing, filter: Filter)
    ensures TimesFailed(rows, f, filter) == |FailingRows(Passing(rows, filter), f)|
  {
    if rows != [] {
      var before, row := rows[..|rows| - 1], rows[|rows| - 1];
      assert rows == before + [row];
      TimesFailedCounts(before, f, filter);
      PassingOneMore(before, row, filter);
      FailingOneMore(Passing(before, filter), row, f);
    }
  }

  /**
   Errors: exactly the resources, kinds and error numbers of the command's rows with a positive
   error number, each with the number of such rows.
   */
  lemma {:induction false} ErrorsAreCounted(rows: seq<EventRow>, filter: Filter, f: Failing)
    ensures f in Errors(rows, filter) <==>
            exists row :: row in Passing(rows, filter) && row.errno > 0 && f == Failing(row.resource, row.kind, row.errno)
    ensures f in Errors(rows, filter) ==> Errors(rows, filter)[f] == |FailingRows(Passing(rows, filter), f)|
  {
    PassingMembers(rows, filter);
    TimesFailedCounts(rows, f, filter);
  }

  // ---- Filtered answers are answers over the command's rows ----

  lemma {:induction false} FilesOfPassing(rows: seq<EventRow>, kind: EventType, filter: Filter)
    ensures TransfersFromEvents(rows, kind, filter) == TransfersFromEvents(Passing(rows, filter), kind, All)
  {
    var passing := Passing(rows, filter);
    AllPassing(passing);
    forall path
      ensures path in TransfersFromEvents(rows, kind, filter) <==> path in TransfersFromEvents(passing, kind, All)
      ensures path in TransfersFromEvents(rows, kind, filter) ==>
                TransfersFromEvents(rows, kind, filter)[path] == TransfersFromEvents(passing, kind, All)[path]
    {
      FilesAreCounted(rows, kind, filter, path);
      FilesAreCounted(passing, kind, All, path);
    }
  }

  lemma {:induction false} LocalConnectsOfPassing(rows: seq<EventRow>, filter: Filter)
    ensures LocalConnects(rows, filter) == LocalConnects(Passing(rows, filter), All)
  {
    var passing := Passing(rows, filter);
    AllPassing(passing);
    forall r
      ensures r in LocalConnects(rows, filter) <==> r in LocalConnects(passing, All)
      ensures r in LocalConnects(rows, filter) ==> LocalConnects(rows, filter)[r] == LocalConnects(passing, All)[r]
    {
      LocalConnectsAreCounted(rows, filter, r);
      LocalConnectsAreCounted(passing, All, r);
    }
  }

  lemma OneLatest(counted: seq<EventRow>, a: EventRow, b: EventRow)
    requires IsLatest(counted, a) && IsLatest(counted, b)
    ensures a == b
  {
    var i :| 0 <= i < |counted| && counted[i] == a && LatestAt(counted, i);
    var j :| 0 <= j < |counted| && counted[j] == b && LatestAt(counted, j);
  }

  lemma LatestOfPassing(counted: seq<EventRow>, a: int, b: int)
    requires exists row :: IsLatest(counted, row) && a == row.errno
    requires exists row :: IsLatest(counted, row) && b == row.errno
    ensures a == b
  {
    var first :| IsLatest(counted, first) && a == first.errno;
    var second :| IsLatest(counted, second) && b == second.errno;
    OneLatest(counted, first, second);
  }

  lemma {:induction false} ConnectOfPassing(rows: seq<EventRow>, filter: Filter, endpoint: string)
    ensures var own, all := ConnectsFromEvents(rows, filter), ConnectsFromEvents(Passing(rows, filter), All);
            && (endpoint in own <==> endpoint in all)
            && (endpoint in own ==> own[endpoint] == all[endpoint])
  {
    var passing := Passing(rows, filter);
    AllPassing(passing);
    ConnectsAreCounted(rows, filter, endpoint);
    ConnectsAreCounted(passing, All, endpoint);
    var own, all := ConnectsFromEvents(rows, filter), ConnectsFromEvents(passing, All);
    if endpoint in own {
      LatestOfPassing(Of(passing, NetworkConnect, endpoint), own[endpoint].lastErrno, all[endpoint].lastErrno);
    }
  }

  lemma {:induction false} ConnectsOfPassing(rows: seq<EventRow>, filter: Filter)
    ensures ConnectsFromEvents(rows, filter) == ConnectsFromEvents(Passing(rows, filter), All)
  {
    var own, all := ConnectsFromEvents(rows, filter), ConnectsFromEvents(Passing(rows, filter), All);
    forall r
      ensures r in own <==> r in all
      ensures r in own ==> own[r] == all[r]
    {
      ConnectOfPassing(rows, filter, r);
    }
  }

  lemma {:induction false} ErrorsOfPassing(rows: seq<EventRow>, filter: Filter)
    ensures Errors(rows, filter) == Errors(Passing(rows, filter), All)
  {
    var passing := Passing(rows, filter);
    AllPassing(passing);
    forall f
      ensures f in Errors(rows, filter) <==> f in Errors(passing, All)
      ensures f in Errors(rows, filter) ==> Errors(rows, filter)[f] == Errors(passing, All)[f]
    {
      ErrorsAreCounted(rows, filter, f);
      ErrorsAreCounted(passing, All, f);
    }
  }

  // ---- The answers for all commands add up to the summary table ----

  /** The commands of the rows, each once; rows without a command are those of None. */
  predicate Covers(ids: seq<Option<I64>>, rows: seq<EventRow>) {
    && (forall i, j | 0 <= i < j < |ids| :: ids[i] != ids[j])
    && (forall row <- rows :: row.command in ids)
  }

  function Answered(answer: map<string, Transfer>, path: string): Transfer {
    if path in answer then answer[path] else Transfer(0, 0)
  }

  /** The answers of show_files for one path, added up over the commands. */
  function AnsweredFor(rows: seq<EventRow>, kind: EventType, path: string, ids: seq<Option<I64>>): Transfer {
    if ids == [] then Transfer(0, 0)
    else
      var first, others := Answered(TransfersFromEvents(rows, kind, Only(ids[0])), path),
                           AnsweredFor(rows, kind, path, ids[1..]);
      Transfer(first.calls + others.calls, first.bytes + others.bytes)
  }

  lemma {:induction false} AnswerIsTotal(rows: seq<EventRow>, kind: EventType, path: string, filter: Filter)
    ensures Answered(TransfersFromEvents(rows, kind, filter), path) ==
            Transfer(Total(rows, Selection(kind, path, filter), Calls),
                     Total(rows, Selection(kind, path, filter), BytesMoved))
  {
    FilesAreCounted(rows, kind, filter, path);
    TotalsCountRows(rows, kind, path, filter);
  }

  lemma {:induction false} AnswersAreSums(rows: seq<EventRow>, kind: EventType, path: string, ids: seq<Option<I64>>)
    ensures AnsweredFor(rows, kind, path, ids) ==
            Transfer(SumOver(rows, kind, path, ids, Calls), SumOver(rows, kind, path, ids, BytesMoved))
  {
    if ids != [] {
      AnswerIsTotal(rows, kind, path, Only(ids[0]));
      AnswersAreSums(rows, kind, path, ids[1..]);
    }
  }

  lemma {:induction false} AnswersAreAnswer(rows: seq<EventRow>, kind: EventType, path: string, ids: seq<Option<I64>>)
    requires Covers(ids, rows)
    ensures AnsweredFor(rows, kind, path, ids) == Answered(TransfersFromEvents(rows, kind, All), path)
  {
    AnswersAreSums(rows, kind, path, ids);
    TotalsArePartitioned(rows, kind, path, ids, Calls);
    TotalsArePartitioned(rows, kind, path, ids, BytesMoved);
    AnswerIsTotal(rows, kind, path, All);
  }

  /** For every path, the answers for the commands add up to the row of file_activity, if there is one. */
  lemma {:induction false} AnswersAddUp(log: seq<Event>, path: string, ids: seq<Option<I64>>)
    requires Store(log).Success? && Covers(ids, Store(log).value.events)
    ensures var t := Store(log).value;
            && AnsweredFor(t.events, FileRead, path, ids)
               == (if path in t.files then Transfer(t.files[path].readCalls, t.files[path].bytesRead) else Transfer(0, 0))
            && AnsweredFor(t.events, FileWrite, path, ids)
               == (if path in t.files then Transfer(t.files[path].writeCalls, t.files[path].bytesWritten)
                   else Transfer(0, 0))
  {
    var rows := Store(log).value.events;
    FileTableIsFold(log);
    AnswersAreAnswer(rows, FileRead, path, ids);
    AnswersAreAnswer(rows, FileWrite, path, ids);
    AnswerIsTotal(rows, FileRead, path, All);
    AnswerIsTotal(rows, FileWrite, path, All);
  }

  // ---- So do the other answers ----

  function Tried(answer: map<string, Attempts>, resource: string): Attempts {
    if resource in answer then answer[resource] else Attempts(0, 0, 0)
  }

  function Connected(answer: map<string, NetworkRow>, endpoint: string): Attempts {
    if endpoint in answer then Attempts(answer[endpoint].connects, answer[endpoint].successes, answer[endpoint].failures)
    else Attempts(0, 0, 0)
  }

  function Plus(a: Attempts, b: Attempts): Attempts {
    Attempts(a.calls + b.calls, a.successes + b.successes, a.failures + b.failures)
  }

  function TriedFor(rows: seq<EventRow>, resource: string, ids: seq<Option<I64>>): Attempts {
    if ids == [] then Attempts(0, 0, 0)
    else Plus(Tried(LocalConnects(rows, Only(ids[0])), resource), TriedFor(rows, resource, ids[1..]))
  }

  function ConnectedFor(rows: seq<EventRow>, endpoint: string, ids: seq<Option<I64>>): Attempts {
    if ids == [] then Attempts(0, 0, 0)
    else Plus(Connected(ConnectsFromEvents(rows, Only(ids[0])), endpoint), ConnectedFor(rows, endpoint, ids[1..]))
  }

  function AttemptTotals(rows: seq<EventRow>, sel: Selection): Attempts {
    Attempts(Total(rows, sel, Calls), Total(rows, sel, Successes), Total(rows, sel, Failures))
  }

  function AttemptSums(rows: seq<EventRow>, kind: EventType, resource: string, ids: seq<Option<I64>>): Attempts {
    if ids == [] then Attempts(0, 0, 0)
    else Plus(AttemptTotals(rows, Selection(kind, resource, Only(ids[0]))), AttemptSums(rows, kind, resource, ids[1..]))
  }

  lemma {:induction false} TriedIsTotal(rows: seq<EventRow>, resource: string, filter: Filter)
    ensures Tried(LocalConnects(rows, filter), resource)
            == AttemptTotals(rows, Selection(LocalIpcConnect, resource, filter))
  {
    LocalConnectsAreCounted(rows, filter, resource);
    TotalsCountRows(rows, LocalIpcConnect, resource, filter);
  }

  lemma {:induction false} ConnectedIsTotal(rows: seq<EventRow>, endpoint: string, filter: Filter)
    ensures Connected(ConnectsFromEvents(rows, filter), endpoint)
            == AttemptTotals(rows, Selection(NetworkConnect, endpoint, filter))
  {
    ConnectsAreCounted(rows, filter, endpoint);
    TotalsCountRows(rows, NetworkConnect, endpoint, filter);
  }

  lemma {:induction false} TriedAreSums(rows: seq<EventRow>, resource: string, ids: seq<Option<I64>>)
    ensures TriedFor(rows, resource, ids) == AttemptSums(rows, LocalIpcConnect, resource, ids)
  {
    if ids != [] {
      TriedIsTotal(rows, resource, Only(ids[0]));
      TriedAreSums(rows, resource, ids[1..]);
    }
  }

  lemma {:induction false} ConnectedAreSums(rows: seq<EventRow>, endpoint: string, ids: seq<Option<I64>>)
    ensures ConnectedFor(rows, endpoint, ids) == AttemptSums(rows, NetworkConnect, endpoint, ids)
  {
    if ids != [] {
      ConnectedIsTotal(rows, endpoint, Only(ids[0]));
      ConnectedAreSums(rows, endpoint, ids[1..]);
    }
  }

  function Part(a: Attempts, m: Measure): nat
    requires !m.BytesMoved?
  {
    match m
    case Calls => a.calls
    case Successes => a.successes
    case Failures => a.failures
  }

  lemma PartOfPlus(a: Attempts, b: Attempts, m: Measure)
    requires !m.BytesMoved?
    ensures Part(Plus(a, b), m) == Part(a, m) + Part(b, m)
  {
  }

  lemma {:induction false} PartOfTotals(rows: seq<EventRow>, sel: Selection, m: Measure)
    requires !m.BytesMoved?
    ensures Part(AttemptTotals(rows, sel), m) == Total(rows, sel, m)
  {
  }

  lemma {:induction false} SumsAreSums(
    rows: seq<EventRow>, kind: EventType, resource: string, ids: seq<Option<I64>>, m: Measure)
    requires !m.BytesMoved?
    ensures Part(AttemptSums(rows, kind, resource, ids), m) == SumOver(rows, kind, resource, ids, m)
  {
    if ids != [] {
      var sel := Selection(kind, resource, Only(ids[0]));
      SumsAreSums(rows, kind, resource, ids[1..], m);
      PartOfTotals(rows, sel, m);
      PartOfPlus(AttemptTotals(rows, sel), AttemptSums(rows, kind, resource, ids[1..]), m);
    }
  }

  lemma {:induction false} AttemptsArePartitioned(
    rows: seq<EventRow>, kind: EventType, resource: string, ids: seq<Option<I64>>)
    requires Covers(ids, rows)
    ensures AttemptTotals(rows, Selection(kind, resource, All)) == AttemptSums(rows, kind, resource, ids)
  {
    forall m: Measure | !m.BytesMoved?
      ensures Part(AttemptTotals(rows, Selection(kind, resource, All)), m)
              == Part(AttemptSums(rows, kind, resource, ids), m)
    {
      SumsAreSums(rows, kind, resource, ids, m);
      TotalsArePartitioned(rows, kind, resource, ids, m);
      PartOfTotals(rows, Selection(kind, resource, All), m);
    }
    PartsSuffice(AttemptTotals(rows, Selection(kind, resource, All)), AttemptSums(rows, kind, resource, ids));
  }

  lemma PartsSuffice(a: Attempts, b: Attempts)
    requires forall m: Measure | !m.BytesMoved? :: Part(a, m) == Part(b, m)
    ensures a == b
  {
    assert Part(a, Calls) == Part(b, Calls);
    assert Part(a, Successes) == Part(b, Successes);
    assert Part(a, Failures) == Part(b, Failures);
  }

  /** For every socket, the attempts of the commands add up to those of the run. */
  lemma {:induction false} LocalConnectsAddUp(rows: seq<EventRow>, resource: string, ids: seq<Option<I64>>)
    requires Covers(ids, rows)
    ensures TriedFor(rows, resource, ids) == Tried(LocalConnects(rows, All), resource)
  {
    TriedAreSums(rows, resource, ids);
    AttemptsArePartitioned(rows, LocalIpcConnect, resource, ids);
    TriedIsTotal(rows, resource, All);
  }

  /** For every endpoint, the attempts of the commands add up to those of the run. */
  lemma {:induction false} ConnectsAddUp(rows: seq<EventRow>, endpoint: string, ids: seq<Option<I64>>)
    requires Covers(ids, rows)
    ensures ConnectedFor(rows, endpoint, ids) == Connected(ConnectsFromEvents(rows, All), endpoint)
  {
    ConnectedAreSums(rows, endpoint, ids);
    AttemptsArePartitioned(rows, NetworkConnect, endpoint, ids);
    ConnectedIsTotal(rows, endpoint, All);
  }

  /** The latest attempt of all is the latest attempt of its command. */
  lemma {:induction false} LatestOfCommand(rows: seq<EventRow>, endpoint: string, command: Option<I64>)
    ensures var all := LatestRow(rows, Selection(NetworkConnect, endpoint, All));
            var own := LatestRow(rows, Selection(NetworkConnect, endpoint, Only(command)));
            && (own.Some? ==> all.Some? && own.value.ns <= all.value.ns)
            && (all.Some? && all.value.command == command ==> own == all)
  {
    if rows != [] {
      var before, row := rows[..|rows| - 1], rows[|rows| - 1];
      assert rows == before + [row];
      LatestOfCommand(before, endpoint, command);
      LatestRowOneMore(before, row, Selection(NetworkConnect, endpoint, All));
      LatestRowOneMore(before, row, Selection(NetworkConnect, endpoint, Only(command)));
    }
  }

  lemma {:induction false} LatestRowIsRow(rows: seq<EventRow>, sel: Selection)
    ensures LatestRow(rows, sel).Some? ==> LatestRow(rows, sel).value in rows && Selects(sel, LatestRow(rows, sel).value)
  {
  }

  /** The last error number of the run is the last one of some command. */
  lemma {:induction false} LastErrnoOfCommand(rows: seq<EventRow>, endpoint: string) returns (command: Option<I64>)
    requires endpoint in ConnectsFromEvents(rows, All)
    ensures endpoint in ConnectsFromEvents(rows, Only(command))
    ensures ConnectsFromEvents(rows, Only(command))[endpoint].lastErrno
            == ConnectsFromEvents(rows, All)[endpoint].lastErrno
  {
    ConnectsAreCounted(rows, All, endpoint);
    LatestRowIsLatest(rows, NetworkConnect, endpoint, All);
    var latest := LatestRow(rows, Selection(NetworkConnect, endpoint, All));
    LatestRowIsRow(rows, Selection(NetworkConnect, endpoint, All));
    command := latest.value.command;
    LatestOfCommand(rows, endpoint, command);
  }

  function FailedFor(rows: seq<EventRow>, f: Failing, ids: seq<Option<I64>>): nat {
    if ids == [] then 0
    else (var answer := Errors(rows, Only(ids[0])); if f in answer then answer[f] else 0) + FailedFor(rows, f, ids[1..])
  }

  function TimesFailedFor(rows: seq<EventRow>, f: Failing, ids: seq<Option<I64>>): nat {
    if ids == [] then 0 else TimesFailed(rows, f, Only(ids[0])) + TimesFailedFor(rows, f, ids[1..])
  }

  lemma {:induction false} AnswerIsTimes(rows: seq<EventRow>, f: Failing, filter: Filter)
    requires f.errno > 0
    ensures (if f in Errors(rows, filter) then Errors(rows, filter)[f] else 0) == TimesFailed(rows, f, filter)
  {
    if f !in Errors(rows, filter) {
      ErrorsAreCounted(rows, filter, f);
      NeverFailed(rows, f, filter);
    }
  }

  lemma {:induction false} NeverFailed(rows: seq<EventRow>, f: Failing, filter: Filter)
    requires forall row <- rows :: Passes(row, filter) ==> f != Failing(row.resource, row.kind, row.errno)
    ensures TimesFailed(rows, f, filter) == 0
  {
    if rows != [] {
      NeverFailed(rows[..|rows| - 1], f, filter);
    }
  }

  lemma {:induction false} FailedAreTimes(rows: seq<EventRow>, f: Failing, ids: seq<Option<I64>>)
    requires f.errno > 0
    ensures FailedFor(rows, f, ids) == TimesFailedFor(rows, f, ids)
  {
    if ids != [] {
      AnswerIsTimes(rows, f, Only(ids[0]));
      FailedAreTimes(rows, f, ids[1..]);
    }
  }

  lemma {:induction false} TimesOneMore(rows: seq<EventRow>, row: EventRow, f: Failing, filter: Filter)
    ensures TimesFailed(rows + [row], f, filter) ==
            TimesFailed(rows, f, filter)
            + (if f == Failing(row.resource, row.kind, row.errno) && Passes(row, filter) then 1 else 0)
  {
    assert (rows + [row])[..|rows|] == rows;
  }

  lemma {:induction false} TimesForOneMore(rows: seq<EventRow>, row: EventRow, f: Failing, ids: seq<Option<I64>>)
    requires forall i, j | 0 <= i < j < |ids| :: ids[i] != ids[j]
    ensures TimesFailedFor(rows + [row], f, ids) ==
            TimesFailedFor(rows, f, ids)
            + (if f == Failing(row.resource, row.kind, row.errno) && row.command in ids then 1 else 0)
  {
    if ids != [] {
      TimesOneMore(rows, row, f, Only(ids[0]));
      TimesForOneMore(rows, row, f, ids[1..]);
      assert ids == [ids[0]] + ids[1..];
    }
  }

  lemma {:induction false} NoTimes(f: Failing, ids: seq<Option<I64>>)
    ensures TimesFailedFor([], f, ids) == 0
  {
    if ids != [] {
      NoTimes(f, ids[1..]);
    }
  }

  lemma {:induction false} TimesArePartitioned(rows: seq<EventRow>, f: Failing, ids: seq<Option<I64>>)
    requires Covers(ids, rows)
    ensures TimesFailed(rows, f, All) == TimesFailedFor(rows, f, ids)
  {
    if rows == [] {
      NoTimes(f, ids);
    } else {
      var before, row := rows[..|rows| - 1], rows[|rows| - 1];
      assert rows == before + [row];
      TimesArePartitioned(before, f, ids);
      TimesOneMore(before, row, f, All);
      TimesForOneMore(before, row, f, ids);
    }
  }

  /** For every resource, kind and error number, the failures of the commands add up to those of the run. */
  lemma {:induction false} ErrorsAddUp(rows: seq<EventRow>, f: Failing, ids: seq<Option<I64>>)
    requires f.errno > 0 && Covers(ids, rows)
    ensures FailedFor(rows, f, ids) == if f in Errors(rows, All) then Errors(rows, All)[f] else 0
  {
    FailedAreTimes(rows, f, ids);
    TimesArePartitioned(rows, f, ids);
    AnswerIsTimes(rows, f, All);
  }

  // ---- The summary tables, counted ----

  /** A row of file_activity holds numbers of calls and of bytes. */
  lemma {:induction false} FileRowIsCounted(log: seq<Event>, path: string)
    requires Store(log).Success? && path in Store(log).value.files
    ensures var rows, row := Store(log).value.events, Store(log).value.files[path];
            && row.readCalls == |Of(rows, FileRead, path)| && row.bytesRead == BytesOf(Of(rows, FileRead, path))
            && row.writeCalls == |Of(rows, FileWrite, path)| && row.bytesWritten == BytesOf(Of(rows, FileWrite, path))
  {
    var rows := Store(log).value.events;
    FileTableIsFold(log);
    AllPassing(rows);
    TotalsCountRows(rows, FileRead, path, All);
    TotalsCountRows(rows, FileWrite, path, All);
  }

  /** A row of network_activity holds the attempts and their outcomes, and the last error number. */
  lemma {:induction false} NetworkRowIsCounted(log: seq<Event>, endpoint: string)
    requires Store(log).Success? && ErrnosFit(log) && endpoint in Store(log).value.network
    ensures var attempts, row := Of(Store(log).value.events, NetworkConnect, endpoint), Store(log).value.network[endpoint];
            && row.connects == |attempts| && row.successes == Succeeded(attempts) && row.failures == Failed(attempts)
            && attempts != [] && row.lastErrno == attempts[|attempts| - 1].errno
  {
    var rows := Store(log).value.events;
    NetworkTableIsFold(log);
    AllPassing(rows);
    TotalsCountRows(rows, NetworkConnect, endpoint, All);
    ResourceIsCounted(rows, NetworkConnect, endpoint);
    LastErrnoIsLast(rows, endpoint);
  }

  lemma {:induction false} LastErrnoIsLast(rows: seq<EventRow>, endpoint: string)
    requires Of(rows, NetworkConnect, endpoint) != []
    ensures var attempts := Of(rows, NetworkConnect, endpoint);
            LastErrno(rows, Selection(NetworkConnect, endpoint, All)) == attempts[|attempts| - 1].errno
  {
    var before, row := rows[..|rows| - 1], rows[|rows| - 1];
    if One(row, NetworkConnect, endpoint) == [] {
      LastErrnoIsLast(before, endpoint);
    }
  }
}
