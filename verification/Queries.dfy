/**
 The questions that show asks a capsule, for one command or for the whole run. The answers
 for a command come from the event table, those for the run mostly from the summary tables.
 */
module Queries {
  import opened Wrappers
  import opened Text
  import opened Events
  import opened Capsule

  /** All rows, or the rows of one command; Only(None) are the rows of no command. */
  datatype Filter = All | Only(command: Option<I64>)

  datatype Selection = Selection(kind: EventType, resource: string, filter: Filter)

  datatype Measure = Calls | BytesMoved | Successes | Failures

  predicate Passes(row: EventRow, filter: Filter) {
    filter.Only? ==> row.command == filter.command
  }

  predicate Selects(sel: Selection, row: EventRow) {
    row.kind == sel.kind && row.resource == sel.resource && Passes(row, sel.filter)
  }

  function Weight(row: EventRow, m: Measure): nat {
    match m
    case Calls => 1
    case BytesMoved => Clamp(row.result)
    case Successes => if row.errno == 0 then 1 else 0
    case Failures => if row.errno > 0 then 1 else 0
  }

  /** COUNT(*) or SUM(CASE ...) over the selected rows. */
  function Total(rows: seq<EventRow>, sel: Selection, m: Measure): nat {
    if rows == [] then 0
    else
      var k := |rows| - 1;
      Total(rows[..k], sel, m) + (if Selects(sel, rows[k]) then Weight(rows[k], m) else 0)
  }

  function Resources(rows: seq<EventRow>, kind: EventType, filter: Filter): set<string> {
    set row <- rows | row.kind == kind && Passes(row, filter) :: row.resource
  }

  // ---- The queries of show ----

  datatype Transfer = Transfer(calls: nat, bytes: nat)

  /** Files, for one command. */
  function TransfersFromEvents(rows: seq<EventRow>, kind: EventType, filter: Filter): map<string, Transfer> {
    map r <- Resources(rows, kind, filter) ::
      Transfer(Total(rows, Selection(kind, r, filter), Calls), Total(rows, Selection(kind, r, filter), BytesMoved))
  }

  /** Files, for the whole run. */
  function TransfersFromTable(files: map<string, FileRow>, kind: EventType): map<string, Transfer> {
    if kind.FileRead? then
      map r <- files | files[r].readCalls > 0 :: Transfer(files[r].readCalls, files[r].bytesRead)
    else
      map r <- files | files[r].writeCalls > 0 :: Transfer(files[r].writeCalls, files[r].bytesWritten)
  }

  /** ORDER BY timestamp_ns DESC, id DESC LIMIT 1: the index of the latest selected row. */
  function Latest(rows: seq<EventRow>, sel: Selection): (r: Option<nat>)
    ensures r.Some? ==> r.value < |rows| && Selects(sel, rows[r.value])
  {
    if rows == [] then None
    else
      var k := |rows| - 1;
      var before := Latest(rows[..k], sel);
      if Selects(sel, rows[k]) && (before.None? || rows[before.value].ns <= rows[k].ns) then Some(k) else before
  }

  function LatestErrno(rows: seq<EventRow>, sel: Selection): int {
    match Latest(rows, sel)
    case None => 0
    case Some(i) => rows[i].errno
  }

  /** Network, for one command. */
  function ConnectsFromEvents(rows: seq<EventRow>, filter: Filter): map<string, NetworkRow> {
    map r <- Resources(rows, NetworkConnect, filter) ::
      var sel := Selection(NetworkConnect, r, filter);
      NetworkRow(Total(rows, sel, Calls), Total(rows, sel, Successes), Total(rows, sel, Failures),
                 LatestErrno(rows, sel))
  }

  datatype Attempts = Attempts(calls: nat, successes: nat, failures: nat)

  /** Local IPC, for one command or the whole run. */
  function LocalConnects(rows: seq<EventRow>, filter: Filter): map<string, Attempts> {
    map r <- Resources(rows, LocalIpcConnect, filter) ::
      var sel := Selection(LocalIpcConnect, r, filter);
      Attempts(Total(rows, sel, Calls), Total(rows, sel, Successes), Total(rows, sel, Failures))
  }

  datatype Failing = Failing(resource: string, kind: EventType, errno: int)

  function TimesFailed(rows: seq<EventRow>, f: Failing, filter: Filter): nat {
    if rows == [] then 0
    else
      var row := rows[|rows| - 1];
      TimesFailed(rows[..|rows| - 1], f, filter) +
      (if row.resource == f.resource && row.kind == f.kind && row.errno == f.errno && Passes(row, filter) then 1
       else 0)
  }

  /** Errors, for one command or the whole run. */
  function Errors(rows: seq<EventRow>, filter: Filter): map<Failing, nat> {
    map f <- (set row <- rows | row.errno > 0 && Passes(row, filter) :: Failing(row.resource, row.kind, row.errno)) ::
      TimesFailed(rows, f, filter)
  }

  // ---- The timeline ----

  predicate TimelineLess(a: EventRow, b: EventRow) {
    a.ns < b.ns || (a.ns == b.ns && a.kind.CommandStart? && !b.kind.CommandStart?)
  }

  /** A row goes behind all rows that do not come after it, so that equal rows keep their order. */
  function Place(sorted: seq<EventRow>, row: EventRow): seq<EventRow> {
    if sorted == [] then [row]
    else if TimelineLess(row, sorted[|sorted| - 1]) then
      Place(sorted[..|sorted| - 1], row) + [sorted[|sorted| - 1]]
    else sorted + [row]
  }

  /** ORDER BY timestamp_ns, command_start first, id. */
  function Timeline(rows: seq<EventRow>, filter: Filter): seq<EventRow> {
    if rows == [] then []
    else
      var before, row := Timeline(rows[..|rows| - 1], filter), rows[|rows| - 1];
      if Passes(row, filter) then Place(before, row) else before
  }

  ghost predicate TimeOrdered(sorted: seq<EventRow>) {
    forall i, j | 0 <= i < j < |sorted| :: !TimelineLess(sorted[j], sorted[i])
  }

  lemma {:induction false} PlaceAdds(sorted: seq<EventRow>, row: EventRow)
    ensures multiset(Place(sorted, row)) == multiset(sorted) + multiset{row}
    ensures forall x <- Place(sorted, row) :: x == row || x in sorted
  {
    if sorted != [] && TimelineLess(row, sorted[|sorted| - 1]) {
      var k := |sorted| - 1;
      PlaceAdds(sorted[..k], row);
      assert sorted == sorted[..k] + [sorted[k]];
    }
  }

  lemma {:induction false} PlaceOrdered(sorted: seq<EventRow>, row: EventRow)
    requires TimeOrdered(sorted)
    ensures TimeOrdered(Place(sorted, row))
  {
    if sorted != [] && TimelineLess(row, sorted[|sorted| - 1]) {
      var k := |sorted| - 1;
      PlaceOrdered(sorted[..k], row);
      PlaceAdds(sorted[..k], row);
      var r := Place(sorted[..k], row);
      forall i | 0 <= i < |r| ensures !TimelineLess(sorted[k], r[i]) {
        assert r[i] == row || r[i] in sorted[..k];
      }
    }
  }

  predicate SameRank(a: EventRow, b: EventRow) {
    !TimelineLess(a, b) && !TimelineLess(b, a)
  }

  /** The rows that time and kind do not tell apart from this one, in their order. */
  function Ranked(rows: seq<EventRow>, x: EventRow): seq<EventRow> {
    if rows == [] then []
    else Ranked(rows[..|rows| - 1], x) + RankedOne(rows[|rows| - 1], x)
  }

  function RankedOne(row: EventRow, x: EventRow): seq<EventRow> {
    if SameRank(row, x) then [row] else []
  }

  lemma {:induction false} RankedMore(rows: seq<EventRow>, row: EventRow, x: EventRow)
    ensures Ranked(rows + [row], x) == Ranked(rows, x) + RankedOne(row, x)
  {
    assert (rows + [row])[..|rows|] == rows;
  }

  lemma RanksDiffer(row: EventRow, last: EventRow, x: EventRow)
    requires TimelineLess(row, last)
    ensures RankedOne(row, x) == [] || RankedOne(last, x) == []
  {
  }

  /** A placed row comes last among the rows of its rank. */
  lemma {:induction false} PlaceIsStable(sorted: seq<EventRow>, row: EventRow, x: EventRow)
    ensures Ranked(Place(sorted, row), x) == Ranked(sorted, x) + RankedOne(row, x)
  {
    if sorted != [] && TimelineLess(row, sorted[|sorted| - 1]) {
      var front, last := sorted[..|sorted| - 1], sorted[|sorted| - 1];
      PlaceIsStable(front, row, x);
      RankedMore(Place(front, row), last, x);
      RanksDiffer(row, last, x);
      Interchange(Ranked(front, x), RankedOne(row, x), RankedOne(last, x));
    } else {
      assert Place(sorted, row) == sorted + [row];
      RankedMore(sorted, row, x);
    }
  }

  lemma Interchange(a: seq<EventRow>, b: seq<EventRow>, c: seq<EventRow>)
    requires b == [] || c == []
    ensures a + b + c == a + c + b
  {
  }

  function Passing(rows: seq<EventRow>, filter: Filter): seq<EventRow> {
    if rows == [] then []
    else Passing(rows[..|rows| - 1], filter) +
         (if Passes(rows[|rows| - 1], filter) then [rows[|rows| - 1]] else [])
  }

  /** The timeline shows exactly the rows that pass, in the order of time. */
  lemma {:induction false} TimelineSorts(rows: seq<EventRow>, filter: Filter)
    ensures TimeOrdered(Timeline(rows, filter))
    ensures multiset(Timeline(rows, filter)) == multiset(Passing(rows, filter))
  {
    if rows != [] {
      var before, row := rows[..|rows| - 1], rows[|rows| - 1];
      TimelineSorts(before, filter);
      if Passes(row, filter) {
        PlaceOrdered(Timeline(before, filter), row);
        PlaceAdds(Timeline(before, filter), row);
      }
    }
  }

  /** Rows that time and kind do not tell apart are shown in the order of their insertion. */
  lemma {:induction false} TimelineIsStable(rows: seq<EventRow>, filter: Filter, x: EventRow)
    ensures Ranked(Timeline(rows, filter), x) == Ranked(Passing(rows, filter), x)
  {
    if rows != [] {
      var before, row := rows[..|rows| - 1], rows[|rows| - 1];
      TimelineIsStable(before, filter, x);
      if Passes(row, filter) {
        PlaceIsStable(Timeline(before, filter), row, x);
        RankedMore(Passing(before, filter), row, x);
      } else {
        assert Passing(before, filter) + [] == Passing(before, filter);
      }
    }
  }

  lemma {:induction false} PassingMembers(rows: seq<EventRow>, filter: Filter)
    ensures forall row :: row in Passing(rows, filter) <==> row in rows && Passes(row, filter)
  {
    if rows != [] {
      PassingMembers(rows[..|rows| - 1], filter);
      assert rows == rows[..|rows| - 1] + [rows[|rows| - 1]];
    }
  }

  lemma {:induction false} TimelineMembers(rows: seq<EventRow>, filter: Filter)
    ensures forall row :: row in Timeline(rows, filter) <==> row in rows && Passes(row, filter)
  {
    TimelineSorts(rows, filter);
    PassingMembers(rows, filter);
    forall row ensures row in Timeline(rows, filter) <==> row in Passing(rows, filter) {
      assert row in Timeline(rows, filter) <==> row in multiset(Timeline(rows, filter));
      assert row in Passing(rows, filter) <==> row in multiset(Passing(rows, filter));
    }
  }

  // ---- Summary tables are folds of the event table ----

  function Rows(log: seq<Event>): seq<EventRow> {
    if log == [] then [] else Rows(log[..|log| - 1]) + [RowOf(log[|log| - 1])]
  }

  lemma {:induction false} RowAt(log: seq<Event>, i: nat)
    requires i < |log|
    ensures |Rows(log)| == |log| && Rows(log)[i] == RowOf(log[i])
  {
    if |log| > 1 {
      RowAt(log[..|log| - 1], if i < |log| - 1 then i else 0);
    }
  }

  lemma {:induction false} StoreKeepsRows(log: seq<Event>)
    requires Store(log).Success?
    ensures Store(log).value.events == Rows(log)
  {
    if log != [] {
      StoreKeepsRows(log[..|log| - 1]);
      InsertFrame(Store(log[..|log| - 1]).value, log[|log| - 1]);
    }
  }

  lemma {:induction false} TotalOneMore(rows: seq<EventRow>, row: EventRow, sel: Selection, m: Measure)
    ensures Total(rows + [row], sel, m) ==
            Total(rows, sel, m) + (if Selects(sel, row) then Weight(row, m) else 0)
  {
    assert (rows + [row])[..|rows|] == rows;
  }

  function TransferOf(rows: seq<EventRow>, path: string, kind: EventType): Transfer {
    var sel := Selection(kind, path, All);
    Transfer(Total(rows, sel, Calls), Total(rows, sel, BytesMoved))
  }

  function RowFrom(r: Transfer, w: Transfer): FileRow {
    FileRow(r.calls, w.calls, r.bytes, w.bytes)
  }

  /** What file_activity must hold for one path. */
  function FileFold(rows: seq<EventRow>, path: string): FileRow {
    RowFrom(TransferOf(rows, path, FileRead), TransferOf(rows, path, FileWrite))
  }

  ghost predicate FilesAreFolds(rows: seq<EventRow>, files: map<string, FileRow>) {
    && (forall path <- files :: files[path] == FileFold(rows, path))
    && files.Keys == Resources(rows, FileRead, All) + Resources(rows, FileWrite, All)
  }

  /** Which tables an event touches. */
  lemma InsertFrame(t: Tables, e: Event)
    requires Insert(t, e).Success?
    ensures var t1 := Insert(t, e).value;
            && t1.events == t.events + [RowOf(e)]
            && t1.files == FilesAfter(t.files, e)
            && t1.network == (if e.kind.NetworkConnect? then UpsertNetwork(t.network, e) else t.network)
  {
  }

  lemma ResourcesOneMore(rows: seq<EventRow>, row: EventRow, kind: EventType, filter: Filter)
    ensures Resources(rows + [row], kind, filter) ==
            Resources(rows, kind, filter) + (if row.kind == kind && Passes(row, filter) then {row.resource} else {})
  {
    var all := rows + [row];
    forall r | r in Resources(rows, kind, filter) ensures r in Resources(all, kind, filter) {
      var x :| x in rows && x.kind == kind && Passes(x, filter) && x.resource == r;
      assert x in all;
    }
    if row.kind == kind && Passes(row, filter) {
      assert row in all;
    }
  }

  lemma {:induction false} NoResourceNoTotal(rows: seq<EventRow>, sel: Selection, m: Measure)
    requires sel.resource !in Resources(rows, sel.kind, sel.filter)
    ensures Total(rows, sel, m) == 0
  {
    if rows != [] {
      var k := |rows| - 1;
      assert rows == rows[..k] + [rows[k]];
      ResourcesOneMore(rows[..k], rows[k], sel.kind, sel.filter);
      NoResourceNoTotal(rows[..k], sel, m);
    }
  }

  /** Calls and bytes of one path, before and after an event. */
  predicate Adds(before: Transfer, after: Transfer, e: Event, path: string, kind: EventType) {
    if e.kind == kind && e.resource == path then
      after == Transfer(before.calls + 1, before.bytes + Clamp(e.result))
    else after == before
  }

  lemma TransferOneMore(rows: seq<EventRow>, e: Event, path: string, kind: EventType)
    ensures Adds(TransferOf(rows, path, kind), TransferOf(rows + [RowOf(e)], path, kind), e, path, kind)
  {
    TotalOneMore(rows, RowOf(e), Selection(kind, path, All), Calls);
    TotalOneMore(rows, RowOf(e), Selection(kind, path, All), BytesMoved);
  }

  lemma RowAdds(r: Transfer, w: Transfer, r1: Transfer, w1: Transfer, e: Event, path: string)
    requires Adds(r, r1, e, path, FileRead) && Adds(w, w1, e, path, FileWrite)
    ensures RowFrom(r1, w1) ==
            if (e.kind.FileRead? || e.kind.FileWrite?) && e.resource == path
            then AddFile(RowFrom(r, w), FileDelta(e)) else RowFrom(r, w)
  {
  }

  lemma FileFoldOneMore(rows: seq<EventRow>, e: Event, path: string)
    ensures FileFold(rows + [RowOf(e)], path) ==
            if (e.kind.FileRead? || e.kind.FileWrite?) && e.resource == path
            then AddFile(FileFold(rows, path), FileDelta(e)) else FileFold(rows, path)
  {
    var rows1 := rows + [RowOf(e)];
    TransferOneMore(rows, e, path, FileRead);
    TransferOneMore(rows, e, path, FileWrite);
    RowAdds(TransferOf(rows, path, FileRead), TransferOf(rows, path, FileWrite),
            TransferOf(rows1, path, FileRead), TransferOf(rows1, path, FileWrite), e, path);
  }

  lemma NoFileNoFold(rows: seq<EventRow>, path: string)
    requires path !in Resources(rows, FileRead, All) && path !in Resources(rows, FileWrite, All)
    ensures FileFold(rows, path) == FileRow(0, 0, 0, 0)
  {
    var ofRead, ofWrite := Selection(FileRead, path, All), Selection(FileWrite, path, All);
    NoResourceNoTotal(rows, ofRead, Calls);
    NoResourceNoTotal(rows, ofRead, BytesMoved);
    NoResourceNoTotal(rows, ofWrite, Calls);
    NoResourceNoTotal(rows, ofWrite, BytesMoved);
  }

  lemma InsertKeepsFiles(t: Tables, e: Event)
    requires FilesAreFolds(t.events, t.files) && Insert(t, e).Success?
    ensures FilesAreFolds(Insert(t, e).value.events, Insert(t, e).value.files)
  {
    InsertFrame(t, e);
    RowKeepsFiles(t.events, t.files, e);
  }

  function FilesAfter(files: map<string, FileRow>, e: Event): map<string, FileRow> {
    if e.kind.FileRead? || e.kind.FileWrite? then UpsertFile(files, e) else files
  }

  lemma RowKeepsFile(rows: seq<EventRow>, files: map<string, FileRow>, e: Event, path: string)
    requires path in files ==> files[path] == FileFold(rows, path)
    requires path !in files ==> FileFold(rows, path) == FileRow(0, 0, 0, 0)
    requires path in FilesAfter(files, e)
    ensures FilesAfter(files, e)[path] == FileFold(rows + [RowOf(e)], path)
  {
    FileFoldOneMore(rows, e, path);
  }

  lemma RowKeepsFiles(rows: seq<EventRow>, files: map<string, FileRow>, e: Event)
    requires FilesAreFolds(rows, files)
    ensures FilesAreFolds(rows + [RowOf(e)], FilesAfter(files, e))
  {
    ResourcesOneMore(rows, RowOf(e), FileRead, All);
    ResourcesOneMore(rows, RowOf(e), FileWrite, All);
    forall path <- FilesAfter(files, e)
      ensures FilesAfter(files, e)[path] == FileFold(rows + [RowOf(e)], path)
    {
      if path !in files {
        NoFileNoFold(rows, path);
      }
      RowKeepsFile(rows, files, e, path);
    }
  }

  /** file_activity holds, for each path that was read or written, the fold of the event table. */
  lemma {:induction false} FileTableIsFold(log: seq<Event>)
    requires Store(log).Success?
    ensures FilesAreFolds(Store(log).value.events, Store(log).value.files)
  {
    if log != [] {
      FileTableIsFold(log[..|log| - 1]);
      InsertKeepsFiles(Store(log[..|log| - 1]).value, log[|log| - 1]);
    }
  }

  // ---- Network ----

  function NetworkFold(rows: seq<EventRow>, endpoint: string): NetworkRow {
    var sel := Selection(NetworkConnect, endpoint, All);
    NetworkRow(Total(rows, sel, Calls), Total(rows, sel, Successes), Total(rows, sel, Failures),
               LastErrno(rows, sel))
  }

  /** The errno of the row inserted last. */
  function LastErrno(rows: seq<EventRow>, sel: Selection): int {
    if rows == [] then 0
    else if Selects(sel, rows[|rows| - 1]) then rows[|rows| - 1].errno
    else LastErrno(rows[..|rows| - 1], sel)
  }

  ghost predicate NetworkIsFold(rows: seq<EventRow>, network: map<string, NetworkRow>) {
    && (forall r <- network :: network[r] == NetworkFold(rows, r))
    && (forall r <- network :: network[r].connects == network[r].successes + network[r].failures)
    && network.Keys == Resources(rows, NetworkConnect, All)
  }

  lemma NetworkFoldOneMore(rows: seq<EventRow>, e: Event, r: string)
    requires e.errno >= 0
    ensures NetworkFold(rows + [RowOf(e)], r) ==
            if e.kind.NetworkConnect? && e.resource == r then
              var f := NetworkFold(rows, r);
              NetworkRow(f.connects + 1, f.successes + (if e.errno == 0 then 1 else 0),
                         f.failures + (if e.errno == 0 then 0 else 1), e.errno)
            else NetworkFold(rows, r)
  {
    var sel := Selection(NetworkConnect, r, All);
    TotalOneMore(rows, RowOf(e), sel, Calls);
    TotalOneMore(rows, RowOf(e), sel, Successes);
    TotalOneMore(rows, RowOf(e), sel, Failures);
    assert (rows + [RowOf(e)])[..|rows|] == rows;
  }

  lemma RowKeepsNetwork(rows: seq<EventRow>, network: map<string, NetworkRow>, e: Event)
    requires NetworkIsFold(rows, network) && e.errno >= 0
    ensures NetworkIsFold(rows + [RowOf(e)], if e.kind.NetworkConnect? then UpsertNetwork(network, e) else network)
  {
    ResourcesOneMore(rows, RowOf(e), NetworkConnect, All);
    var network1 := if e.kind.NetworkConnect? then UpsertNetwork(network, e) else network;
    forall r <- network1 ensures network1[r] == NetworkFold(rows + [RowOf(e)], r) {
      NetworkFoldOneMore(rows, e, r);
      if r !in network {
        var sel := Selection(NetworkConnect, r, All);
        NoResourceNoTotal(rows, sel, Calls);
        NoResourceNoTotal(rows, sel, Successes);
        NoResourceNoTotal(rows, sel, Failures);
      }
    }
  }

  predicate ErrnosFit(log: seq<Event>) {
    forall e <- log :: e.errno >= 0
  }

  /** network_activity is the fold of the event table, and attempts are successes plus failures. */
  lemma {:induction false} NetworkTableIsFold(log: seq<Event>)
    requires Store(log).Success? && ErrnosFit(log)
    ensures NetworkIsFold(Store(log).value.events, Store(log).value.network)
  {
    if log != [] {
      var before := log[..|log| - 1];
      NetworkTableIsFold(before);
      InsertFrame(Store(before).value, log[|log| - 1]);
      RowKeepsNetwork(Store(before).value.events, Store(before).value.network, log[|log| - 1]);
    }
  }

  /** Local IPC rows obey the same balance. */
  lemma {:induction false} AttemptsBalance(rows: seq<EventRow>, sel: Selection)
    requires forall row <- rows :: row.errno >= 0
    ensures Total(rows, sel, Calls) == Total(rows, sel, Successes) + Total(rows, sel, Failures)
  {
    if rows != [] {
      AttemptsBalance(rows[..|rows| - 1], sel);
    }
  }

  // ---- Totals are sums over the commands ----

  function SumOver(rows: seq<EventRow>, kind: EventType, resource: string, ids: seq<Option<I64>>, m: Measure): nat {
    if ids == [] then 0
    else Total(rows, Selection(kind, resource, Only(ids[0])), m) + SumOver(rows, kind, resource, ids[1..], m)
  }

  lemma {:induction false} SumOverOneMore(
    rows: seq<EventRow>, row: EventRow, kind: EventType, resource: string, ids: seq<Option<I64>>, m: Measure)
    requires forall i, j | 0 <= i < j < |ids| :: ids[i] != ids[j]
    ensures SumOver(rows + [row], kind, resource, ids, m) ==
            SumOver(rows, kind, resource, ids, m) +
            (if row.command in ids && row.kind == kind && row.resource == resource then Weight(row, m) else 0)
  {
    if ids != [] {
      TotalOneMore(rows, row, Selection(kind, resource, Only(ids[0])), m);
      SumOverOneMore(rows, row, kind, resource, ids[1..], m);
      assert ids == [ids[0]] + ids[1..];
    }
  }

  lemma {:induction false} SumOverNothing(kind: EventType, resource: string, ids: seq<Option<I64>>, m: Measure)
    ensures SumOver([], kind, resource, ids, m) == 0
  {
    if ids != [] {
      SumOverNothing(kind, resource, ids[1..], m);
    }
  }

  /** Every total of the run is the sum of the totals per command and of the unattributed part. */
  lemma {:induction false} TotalsArePartitioned(
    rows: seq<EventRow>, kind: EventType, resource: string, ids: seq<Option<I64>>, m: Measure)
    requires forall i, j | 0 <= i < j < |ids| :: ids[i] != ids[j]
    requires forall row <- rows :: row.command in ids
    ensures Total(rows, Selection(kind, resource, All), m) == SumOver(rows, kind, resource, ids, m)
  {
    if rows == [] {
      SumOverNothing(kind, resource, ids, m);
    } else {
      var k := |rows| - 1;
      assert rows == rows[..k] + [rows[k]];
      TotalsArePartitioned(rows[..k], kind, resource, ids, m);
      SumOverOneMore(rows[..k], rows[k], kind, resource, ids, m);
    }
  }

  // ---- The two sources of an answer agree ----

  lemma {:induction false} ResourceHasCalls(rows: seq<EventRow>, sel: Selection)
    requires sel.resource in Resources(rows, sel.kind, sel.filter)
    ensures Total(rows, sel, Calls) > 0
  {
    var k := |rows| - 1;
    assert rows == rows[..k] + [rows[k]];
    ResourcesOneMore(rows[..k], rows[k], sel.kind, sel.filter);
    if !Selects(sel, rows[k]) {
      ResourceHasCalls(rows[..k], sel);
    }
  }

  /** For the whole run, the summary table answers what the event table would. */
  lemma {:induction false} TransfersAgree(log: seq<Event>, kind: EventType)
    requires Store(log).Success? && (kind.FileRead? || kind.FileWrite?)
    ensures TransfersFromTable(Store(log).value.files, kind) == TransfersFromEvents(Store(log).value.events, kind, All)
  {
    FileTableIsFold(log);
    var t := Store(log).value;
    forall path ensures path in TransfersFromTable(t.files, kind) <==> path in Resources(t.events, kind, All) {
      var sel := Selection(kind, path, All);
      if path in Resources(t.events, kind, All) {
        ResourceHasCalls(t.events, sel);
      } else {
        NoResourceNoTotal(t.events, sel, Calls);
      }
    }
  }

  predicate TimesAscend(rows: seq<EventRow>, kind: EventType) {
    forall i, j | 0 <= i < j < |rows| && rows[i].kind == kind && rows[j].kind == kind :: rows[i].ns <= rows[j].ns
  }

  lemma {:induction false} LatestIsLast(rows: seq<EventRow>, sel: Selection)
    requires TimesAscend(rows, sel.kind)
    ensures LatestErrno(rows, sel) == LastErrno(rows, sel)
  {
    if rows != [] {
      LatestIsLast(rows[..|rows| - 1], sel);
    }
  }

  /** With times that ascend, the same holds for the network, the last errno included. */
  lemma {:induction false} ConnectsAgree(log: seq<Event>)
    requires Store(log).Success? && ErrnosFit(log) && TimesAscend(Store(log).value.events, NetworkConnect)
    ensures ConnectsFromEvents(Store(log).value.events, All) == Store(log).value.network
  {
    NetworkTableIsFold(log);
    var t := Store(log).value;
    forall r <- t.network ensures ConnectsFromEvents(t.events, All)[r] == t.network[r] {
      LatestIsLast(t.events, Selection(NetworkConnect, r, All));
    }
  }

  // ---- A filter that every row passes ----

  predicate AllPass(rows: seq<EventRow>, filter: Filter) {
    forall row <- rows :: Passes(row, filter)
  }

  lemma {:induction false} SameTotals(rows: seq<EventRow>, sel: Selection, m: Measure)
    requires AllPass(rows, sel.filter)
    ensures Total(rows, sel, m) == Total(rows, sel.(filter := All), m)
    ensures Latest(rows, sel) == Latest(rows, sel.(filter := All))
  {
    if rows != [] {
      SameTotals(rows[..|rows| - 1], sel, m);
    }
  }

  lemma {:induction false} SameTimesFailed(rows: seq<EventRow>, f: Failing, filter: Filter)
    requires AllPass(rows, filter)
    ensures TimesFailed(rows, f, filter) == TimesFailed(rows, f, All)
  {
    if rows != [] {
      SameTimesFailed(rows[..|rows| - 1], f, filter);
    }
  }

  lemma SameTransfers(rows: seq<EventRow>, kind: EventType, filter: Filter)
    requires AllPass(rows, filter)
    ensures TransfersFromEvents(rows, kind, filter) == TransfersFromEvents(rows, kind, All)
  {
    assert Resources(rows, kind, filter) == Resources(rows, kind, All);
    forall r <- Resources(rows, kind, filter)
      ensures TransfersFromEvents(rows, kind, filter)[r] == TransfersFromEvents(rows, kind, All)[r]
    {
      SameTotals(rows, Selection(kind, r, filter), Calls);
      SameTotals(rows, Selection(kind, r, filter), BytesMoved);
    }
  }

  lemma SameConnects(rows: seq<EventRow>, filter: Filter)
    requires AllPass(rows, filter)
    ensures ConnectsFromEvents(rows, filter) == ConnectsFromEvents(rows, All)
    ensures LocalConnects(rows, filter) == LocalConnects(rows, All)
  {
    assert Resources(rows, NetworkConnect, filter) == Resources(rows, NetworkConnect, All);
    assert Resources(rows, LocalIpcConnect, filter) == Resources(rows, LocalIpcConnect, All);
    forall kind, r
      ensures var sel := Selection(kind, r, filter);
              && Total(rows, sel, Calls) == Total(rows, sel.(filter := All), Calls)
              && Total(rows, sel, Successes) == Total(rows, sel.(filter := All), Successes)
              && Total(rows, sel, Failures) == Total(rows, sel.(filter := All), Failures)
              && LatestErrno(rows, sel) == LatestErrno(rows, sel.(filter := All))
    {
      SameTotals(rows, Selection(kind, r, filter), Calls);
      SameTotals(rows, Selection(kind, r, filter), Successes);
      SameTotals(rows, Selection(kind, r, filter), Failures);
    }
  }

  lemma SameErrors(rows: seq<EventRow>, filter: Filter)
    requires AllPass(rows, filter)
    ensures Errors(rows, filter) == Errors(rows, All)
  {
    forall f ensures TimesFailed(rows, f, filter) == TimesFailed(rows, f, All) {
      SameTimesFailed(rows, f, filter);
    }
  }
}
