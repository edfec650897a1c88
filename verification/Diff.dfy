/**
 The comparison of two capsules: what is loaded from each, and the lines that show where the
 two differ.
 */
module Diff {
  import opened Wrappers
  import opened Ordering
  import opened Events
  import opened Capsule
  import Filtering
  import Queries
  import Recording
  import Runs

  datatype Counts = Counts(calls: nat, successes: nat, failures: nat, bytes: nat)

  datatype Item = Item(name: string, counts: Counts)

  /** std::map<std::string, Counts>, in the order in which it is iterated. */
  type Activity = seq<Item>

  predicate Ordered(a: Activity) {
    forall i, j | 0 <= i < j < |a| :: Less(a[i].name, a[j].name)
  }

  /** The counts under a name, looked for below a position. */
  function Find(a: Activity, k: nat, name: string): Option<Counts>
    requires k <= |a|
  {
    if k == 0 then None
    else if a[k - 1].name == name then Some(a[k - 1].counts)
    else Find(a, k - 1, name)
  }

  function Lookup(a: Activity, name: string): Option<Counts> {
    Find(a, |a|, name)
  }

  /** operator[] and assignment. */
  function Put(a: Activity, item: Item): Activity {
    if a == [] || Less(a[|a| - 1].name, item.name) then a + [item]
    else if a[|a| - 1].name == item.name then a[..|a| - 1] + [item]
    else Put(a[..|a| - 1], item) + [a[|a| - 1]]
  }

  lemma {:induction false} FindAgrees(a: Activity, b: Activity, k: nat, name: string)
    requires k <= |a| && k <= |b| && a[..k] == b[..k]
    ensures Find(a, k, name) == Find(b, k, name)
  {
    if k > 0 {
      assert a[k - 1] == a[..k][k - 1] == b[..k][k - 1] == b[k - 1];
      assert a[..k - 1] == a[..k][..k - 1] == b[..k - 1];
      FindAgrees(a, b, k - 1, name);
    }
  }

  lemma LookupOneMore(a: Activity, item: Item, name: string)
    ensures Lookup(a + [item], name) == if item.name == name then Some(item.counts) else Lookup(a, name)
  {
    FindAgrees(a, a + [item], |a|, name);
  }

  lemma LookupLast(a: Activity, name: string)
    requires a != []
    ensures var last := a[|a| - 1];
            Lookup(a, name) == if last.name == name then Some(last.counts) else Lookup(a[..|a| - 1], name)
  {
    assert a == a[..|a| - 1] + [a[|a| - 1]];
    LookupOneMore(a[..|a| - 1], a[|a| - 1], name);
  }

  lemma {:induction false} FindFinds(a: Activity, k: nat, name: string)
    requires k <= |a|
    ensures Find(a, k, name).Some? <==> exists i :: 0 <= i < k && a[i].name == name
    ensures Find(a, k, name).Some? ==> exists i :: 0 <= i < k && a[i] == Item(name, Find(a, k, name).value)
  {
    if k > 0 && a[k - 1].name != name {
      FindFinds(a, k - 1, name);
    }
  }

  /** A name is not found below its own position. */
  lemma {:induction false} FindAbove(a: Activity, k: nat)
    requires Ordered(a) && k < |a|
    ensures Find(a, k, a[k].name) == None
  {
    FindFinds(a, k, a[k].name);
    forall i | 0 <= i < k ensures a[i].name != a[k].name {
      LessTotal(a[i].name, a[k].name);
    }
  }

  lemma {:induction false} PutKeepsOrder(a: Activity, item: Item)
    requires Ordered(a)
    ensures Ordered(Put(a, item))
    ensures forall x <- Put(a, item) :: x == item || x in a
  {
    if a != [] {
      var k := |a| - 1;
      LessTotal(a[k].name, item.name);
      if Less(a[k].name, item.name) {
        forall i | 0 <= i < k ensures Less(a[i].name, item.name) {
          LessTransitive(a[i].name, a[k].name, item.name);
        }
      } else if a[k].name != item.name {
        PutKeepsOrder(a[..k], item);
        var r := Put(a[..k], item);
        forall i | 0 <= i < |r| ensures Less(r[i].name, a[k].name) {
          assert r[i] in r;
        }
      }
    }
  }

  lemma {:induction false} LookupOfPut(a: Activity, item: Item, name: string)
    requires Ordered(a)
    ensures Lookup(Put(a, item), name) == if item.name == name then Some(item.counts) else Lookup(a, name)
  {
    if a == [] || Less(a[|a| - 1].name, item.name) {
      LookupOneMore(a, item, name);
    } else {
      var k := |a| - 1;
      LookupLast(a, name);
      if a[k].name == item.name {
        LookupOneMore(a[..k], item, name);
      } else {
        LookupOfPut(a[..k], item, name);
        LookupOneMore(Put(a[..k], item), a[k], name);
      }
    }
  }

  // ---- What is loaded ----

  function ReadsOf(files: map<string, FileRow>, path: string): Option<Counts> {
    if path in files && files[path].readCalls > 0 then
      Some(Counts(files[path].readCalls, 0, 0, files[path].bytesRead))
    else None
  }

  function WritesOf(files: map<string, FileRow>, path: string): Option<Counts> {
    if path in files && files[path].writeCalls > 0 then
      Some(Counts(files[path].writeCalls, 0, 0, files[path].bytesWritten))
    else None
  }

  function NetworkOf(network: map<string, NetworkRow>, endpoint: string): Option<Counts> {
    if endpoint in network then
      Some(Counts(network[endpoint].connects, network[endpoint].successes, network[endpoint].failures, 0))
    else None
  }

  function LocalOf(local: map<string, Queries.Attempts>, resource: string): Option<Counts> {
    if resource in local then
      Some(Counts(local[resource].calls, local[resource].successes, local[resource].failures, 0))
    else None
  }

  /** The rows of a table, in whatever order the query yields them. */
  ghost predicate Lists<R>(rows: seq<(string, R)>, table: map<string, R>) {
    && (forall i | 0 <= i < |rows| :: rows[i].0 in table && table[rows[i].0] == rows[i].1)
    && (forall key <- table :: (key, table[key]) in rows)
  }

  ghost predicate Reached<R>(rows: seq<(string, R)>, k: nat, key: string) {
    exists i :: 0 <= i < k <= |rows| && rows[i].0 == key
  }

  lemma ReachedOneMore<R>(rows: seq<(string, R)>, k: nat)
    requires k < |rows|
    ensures forall key :: Reached(rows, k + 1, key) <==> Reached(rows, k, key) || key == rows[k].0
  {
    forall key | Reached(rows, k, key) ensures Reached(rows, k + 1, key) {
      var i :| 0 <= i < k && rows[i].0 == key;
    }
  }

  lemma AllReached<R>(rows: seq<(string, R)>, table: map<string, R>)
    requires Lists(rows, table)
    ensures forall key <- table :: Reached(rows, |rows|, key)
    ensures forall key | Reached(rows, |rows|, key) :: key in table
  {
    forall key <- table ensures Reached(rows, |rows|, key) {
      var i :| 0 <= i < |rows| && rows[i] == (key, table[key]);
      assert rows[i].0 == key;
    }
  }

  method LoadFiles(rows: seq<(string, FileRow)>, ghost files: map<string, FileRow>)
    returns (readPaths: Activity, writePaths: Activity)
    requires Lists(rows, files)
    ensures Ordered(readPaths) && forall path :: Lookup(readPaths, path) == ReadsOf(files, path)
    ensures Ordered(writePaths) && forall path :: Lookup(writePaths, path) == WritesOf(files, path)
  {
    readPaths, writePaths := [], [];
    for k := 0 to |rows|
      invariant Ordered(readPaths) && Ordered(writePaths)
      invariant forall path :: Lookup(readPaths, path) == if Reached(rows, k, path) then ReadsOf(files, path) else None
      invariant forall path :: Lookup(writePaths, path) == if Reached(rows, k, path) then WritesOf(files, path) else None
    {
      var (path, row) := rows[k];
      ReachedOneMore(rows, k);
      if row.readCalls > 0 {
        var item := Item(path, Counts(row.readCalls, 0, 0, row.bytesRead));
        PutKeepsOrder(readPaths, item);
        forall other { LookupOfPut(readPaths, item, other); }
        readPaths := Put(readPaths, item);
      }
      if row.writeCalls > 0 {
        var item := Item(path, Counts(row.writeCalls, 0, 0, row.bytesWritten));
        PutKeepsOrder(writePaths, item);
        forall other { LookupOfPut(writePaths, item, other); }
        writePaths := Put(writePaths, item);
      }
    }
    AllReached(rows, files);
  }

  method LoadNetwork(rows: seq<(string, NetworkRow)>, ghost network: map<string, NetworkRow>)
    returns (loaded: Activity)
    requires Lists(rows, network)
    ensures Ordered(loaded) && forall endpoint :: Lookup(loaded, endpoint) == NetworkOf(network, endpoint)
  {
    loaded := [];
    for k := 0 to |rows|
      invariant Ordered(loaded)
      invariant forall endpoint ::
                  Lookup(loaded, endpoint) == if Reached(rows, k, endpoint) then NetworkOf(network, endpoint) else None
    {
      var (endpoint, row) := rows[k];
      ReachedOneMore(rows, k);
      var item := Item(endpoint, Counts(row.connects, row.successes, row.failures, 0));
      PutKeepsOrder(loaded, item);
      forall other { LookupOfPut(loaded, item, other); }
      loaded := Put(loaded, item);
    }
    AllReached(rows, network);
  }

  method LoadLocalIpc(rows: seq<(string, Queries.Attempts)>, ghost local: map<string, Queries.Attempts>)
    returns (loaded: Activity)
    requires Lists(rows, local)
    ensures Ordered(loaded) && forall resource :: Lookup(loaded, resource) == LocalOf(local, resource)
  {
    loaded := [];
    for k := 0 to |rows|
      invariant Ordered(loaded)
      invariant forall resource ::
                  Lookup(loaded, resource) == if Reached(rows, k, resource) then LocalOf(local, resource) else None
    {
      var (resource, row) := rows[k];
      ReachedOneMore(rows, k);
      var item := Item(resource, Counts(row.calls, row.successes, row.failures, 0));
      PutKeepsOrder(loaded, item);
      forall other { LookupOfPut(loaded, item, other); }
      loaded := Put(loaded, item);
    }
    AllReached(rows, local);
  }

  /** What is loaded from a capsule counts its events: calls, outcomes and bytes of each name. */
  lemma {:induction false} LoadedFilesAreCounted(log: seq<Event>, path: string)
    requires Store(log).Success?
    ensures var t := Store(log).value;
            var read, written := Filtering.Of(t.events, FileRead, path), Filtering.Of(t.events, FileWrite, path);
            && ReadsOf(t.files, path) ==
               (if read == [] then None else Some(Counts(|read|, 0, 0, Filtering.BytesOf(read))))
            && WritesOf(t.files, path) ==
               (if written == [] then None else Some(Counts(|written|, 0, 0, Filtering.BytesOf(written))))
  {
    var t := Store(log).value;
    Queries.FileTableIsFold(log);
    Filtering.ResourceIsCounted(t.events, FileRead, path);
    Filtering.ResourceIsCounted(t.events, FileWrite, path);
    if path in t.files {
      Filtering.FileRowIsCounted(log, path);
    }
  }

  lemma {:induction false} LoadedNetworkIsCounted(log: seq<Event>, endpoint: string)
    requires Store(log).Success? && Queries.ErrnosFit(log)
    ensures var t := Store(log).value;
            var attempts := Filtering.Of(t.events, NetworkConnect, endpoint);
            NetworkOf(t.network, endpoint) ==
            if attempts == [] then None
            else Some(Counts(|attempts|, Filtering.Succeeded(attempts), Filtering.Failed(attempts), 0))
  {
    var t := Store(log).value;
    Queries.NetworkTableIsFold(log);
    Filtering.ResourceIsCounted(t.events, NetworkConnect, endpoint);
    if endpoint in t.network {
      Filtering.NetworkRowIsCounted(log, endpoint);
    }
  }

  lemma {:induction false} LoadedLocalIpcIsCounted(rows: seq<EventRow>, resource: string)
    ensures var attempts := Filtering.Of(rows, LocalIpcConnect, resource);
            LocalOf(Queries.LocalConnects(rows, Queries.All), resource) ==
            if attempts == [] then None
            else Some(Counts(|attempts|, Filtering.Succeeded(attempts), Filtering.Failed(attempts), 0))
  {
    Filtering.AllPassing(rows);
    Filtering.LocalConnectsAreCounted(rows, Queries.All, resource);
  }

  // ---- The printed lines ----

  /** What a changed line shows besides the number of calls. */
  datatype Amount = Bytes(before: nat, after: nat) | Failures(before: nat, after: nat)

  datatype Line =
    | Removed(title: string, name: string)
    | Added(title: string, name: string)
    | Changed(title: string, name: string, callsBefore: nat, callsAfter: nat, amount: Amount)

  function ChangedLine(title: string, name: string, x: Counts, y: Counts, network: bool): Line {
    Changed(title, name, x.calls, y.calls,
            if network then Failures(x.failures, y.failures) else Bytes(x.bytes, y.bytes))
  }

  /** What has to be said about one name. */
  function Expected(title: string, name: string, x: Option<Counts>, y: Option<Counts>, network: bool): seq<Line> {
    match (x, y)
    case (None, None) => []
    case (Some(_), None) => [Removed(title, name)]
    case (None, Some(_)) => [Added(title, name)]
    case (Some(c), Some(d)) => if c == d then [] else [ChangedLine(title, name, c, d, network)]
  }

  function OnBefore(title: string, item: Item, after: Activity, network: bool): seq<Line> {
    Expected(title, item.name, Some(item.counts), Lookup(after, item.name), network)
  }

  function OnAfter(title: string, item: Item, before: Activity): seq<Line> {
    if Lookup(before, item.name).None? then [Added(title, item.name)] else []
  }

  function FirstPart(title: string, before: Activity, k: nat, after: Activity, network: bool): seq<Line>
    requires k <= |before|
  {
    if k == 0 then []
    else FirstPart(title, before, k - 1, after, network) + OnBefore(title, before[k - 1], after, network)
  }

  function SecondPart(title: string, before: Activity, after: Activity, k: nat): seq<Line>
    requires k <= |after|
  {
    if k == 0 then [] else SecondPart(title, before, after, k - 1) + OnAfter(title, after[k - 1], before)
  }

  function DiffLines(title: string, before: Activity, after: Activity, network: bool): seq<Line> {
    FirstPart(title, before, |before|, after, network) + SecondPart(title, before, after, |after|)
  }

  method PrintActivityDiff(title: string, before: Activity, after: Activity, network: bool)
    returns (lines: seq<Line>, changed: bool)
    requires Ordered(before) && Ordered(after)
    ensures lines == DiffLines(title, before, after, network)
    ensures changed <==> before != after
  {
    lines, changed := [], false;
    for i := 0 to |before|
      invariant lines == FirstPart(title, before, i, after, network)
      invariant changed <==> lines != []
    {
      var (name, counts) := (before[i].name, before[i].counts);
      var found := Lookup(after, name);
      if found.None? {
        lines := lines + [Removed(title, name)];
        changed := true;
      } else if counts != found.value {
        var amount := if network then Failures(counts.failures, found.value.failures)
                      else Bytes(counts.bytes, found.value.bytes);
        lines := lines + [Changed(title, name, counts.calls, found.value.calls, amount)];
        changed := true;
      }
    }
    ghost var first := lines;
    for j := 0 to |after|
      invariant lines == first + SecondPart(title, before, after, j)
      invariant changed <==> lines != []
    {
      if Lookup(before, after[j].name).None? {
        lines := lines + [Added(title, after[j].name)];
        changed := true;
      }
    }
    SilentIfEqual(title, before, after, network);
  }

  // ---- What the lines say ----

  function LinesAbout(lines: seq<Line>, name: string): seq<Line> {
    if lines == [] then []
    else
      LinesAbout(lines[..|lines| - 1], name) + (if lines[|lines| - 1].name == name then [lines[|lines| - 1]] else [])
  }

  lemma {:induction false} LinesAboutConcat(a: seq<Line>, b: seq<Line>, name: string)
    ensures LinesAbout(a + b, name) == LinesAbout(a, name) + LinesAbout(b, name)
    decreases |b|
  {
    if b == [] {
      assert a + b == a;
    } else {
      var k := |b| - 1;
      assert (a + b)[..|a + b| - 1] == a + b[..k];
      LinesAboutConcat(a, b[..k], name);
    }
  }

  /** Lines that all speak of one name, put behind other lines. */
  lemma {:induction false} AboutOneMore(lines: seq<Line>, more: seq<Line>, about: string, name: string)
    requires |more| <= 1 && forall l <- more :: l.name == about
    ensures name == about && LinesAbout(lines, name) == [] ==> LinesAbout(lines + more, name) == more
    ensures name != about ==> LinesAbout(lines + more, name) == LinesAbout(lines, name)
  {
    LinesAboutConcat(lines, more, name);
    if more != [] {
      assert more[..0] == [] && more == [more[0]];
    }
  }

  lemma ExpectedIsOne(title: string, name: string, x: Option<Counts>, y: Option<Counts>, network: bool)
    ensures |Expected(title, name, x, y, network)| <= 1
    ensures forall l <- Expected(title, name, x, y, network) :: l.name == name
  {
  }

  /** What is said about one name after more lines, all of them about another name or this one. */
  lemma {:induction false} AboutStep(lines: seq<Line>, more: seq<Line>, about: string, name: string, said: seq<Line>)
    requires |more| <= 1 && forall l <- more :: l.name == about
    requires name == about ==> LinesAbout(lines, name) == [] && said == more
    requires name != about ==> said == LinesAbout(lines, name)
    ensures LinesAbout(lines + more, name) == said
  {
    AboutOneMore(lines, more, about, name);
  }

  /** What the first loop has to say about a name when it has come to k. */
  function SaidBefore(title: string, before: Activity, k: nat, after: Activity, network: bool, name: string): seq<Line>
    requires k <= |before|
  {
    var x := Find(before, k, name);
    if x.Some? then Expected(title, name, x, Lookup(after, name), network) else []
  }

  lemma SaidBeforeStep(title: string, before: Activity, k: nat, after: Activity, network: bool, name: string)
    requires Ordered(before) && 0 < k <= |before|
    ensures var item := before[k - 1];
            && (name == item.name ==>
                  && SaidBefore(title, before, k - 1, after, network, name) == []
                  && SaidBefore(title, before, k, after, network, name) == OnBefore(title, item, after, network))
            && (name != item.name ==>
                  SaidBefore(title, before, k, after, network, name)
                  == SaidBefore(title, before, k - 1, after, network, name))
  {
    FindAbove(before, k - 1);
  }

  lemma {:induction false} FirstPartAbout(
    title: string, before: Activity, k: nat, after: Activity, network: bool, name: string)
    requires Ordered(before) && k <= |before|
    ensures LinesAbout(FirstPart(title, before, k, after, network), name)
            == SaidBefore(title, before, k, after, network, name)
  {
    if k > 0 {
      var item := before[k - 1];
      FirstPartAbout(title, before, k - 1, after, network, name);
      SaidBeforeStep(title, before, k, after, network, name);
      ExpectedIsOne(title, item.name, Some(item.counts), Lookup(after, item.name), network);
      AboutStep(FirstPart(title, before, k - 1, after, network), OnBefore(title, item, after, network),
                item.name, name, SaidBefore(title, before, k, after, network, name));
    }
  }

  lemma OnAfterIsOne(title: string, item: Item, before: Activity)
    ensures |OnAfter(title, item, before)| <= 1
    ensures forall l <- OnAfter(title, item, before) :: l.name == item.name
  {
  }

  /** What the second loop has to say about a name when it has come to k. */
  function SaidAfter(title: string, before: Activity, after: Activity, k: nat, name: string): seq<Line>
    requires k <= |after|
  {
    if Find(after, k, name).Some? && Lookup(before, name).None? then [Added(title, name)] else []
  }

  lemma SaidAfterStep(title: string, before: Activity, after: Activity, k: nat, name: string)
    requires Ordered(after) && 0 < k <= |after|
    ensures var item := after[k - 1];
            && (name == item.name ==>
                  && SaidAfter(title, before, after, k - 1, name) == []
                  && SaidAfter(title, before, after, k, name) == OnAfter(title, item, before))
            && (name != item.name ==>
                  SaidAfter(title, before, after, k, name) == SaidAfter(title, before, after, k - 1, name))
  {
    FindAbove(after, k - 1);
  }

  lemma {:induction false} SecondPartAbout(title: string, before: Activity, after: Activity, k: nat, name: string)
    requires Ordered(after) && k <= |after|
    ensures LinesAbout(SecondPart(title, before, after, k), name) == SaidAfter(title, before, after, k, name)
  {
    if k > 0 {
      var item := after[k - 1];
      SecondPartAbout(title, before, after, k - 1, name);
      SaidAfterStep(title, before, after, k, name);
      OnAfterIsOne(title, item, before);
      AboutStep(SecondPart(title, before, after, k - 1), OnAfter(title, item, before),
                item.name, name, SaidAfter(title, before, after, k, name));
    }
  }

  /**
   About every name the lines say exactly what is to be said, once: nothing if both sides
   agree, a removal or an addition if one side lacks it, a change otherwise.
   */
  lemma {:induction false} LinesSayAll(title: string, before: Activity, after: Activity, network: bool, name: string)
    requires Ordered(before) && Ordered(after)
    ensures LinesAbout(DiffLines(title, before, after, network), name) ==
            Expected(title, name, Lookup(before, name), Lookup(after, name), network)
  {
    LinesAboutConcat(FirstPart(title, before, |before|, after, network),
                     SecondPart(title, before, after, |after|), name);
    FirstPartAbout(title, before, |before|, after, network, name);
    SecondPartAbout(title, before, after, |after|, name);
  }

  lemma {:induction false} LineIsAboutItsName(lines: seq<Line>, l: Line)
    ensures l in lines <==> l in LinesAbout(lines, l.name)
  {
    if lines != [] {
      var k := |lines| - 1;
      LineIsAboutItsName(lines[..k], l);
      assert lines == lines[..k] + [lines[k]];
    }
  }

  /** A map is determined by what is found in it. */
  lemma {:induction false} OrderedIsDetermined(a: Activity, b: Activity)
    requires Ordered(a) && Ordered(b) && forall name :: Lookup(a, name) == Lookup(b, name)
    ensures a == b
  {
    if a != [] || b != [] {
      LastIsFound(a, b);
      LastIsFound(b, a);
      var i, j := |a| - 1, |b| - 1;
      LessTotal(a[i].name, b[j].name);
      FindAbove(a, i);
      FindAbove(b, j);
      forall name ensures Lookup(a[..i], name) == Lookup(b[..j], name) {
        FindAgrees(a, a[..i], i, name);
        FindAgrees(b, b[..j], j, name);
        assert Lookup(a, name) == Lookup(b, name);
      }
      OrderedIsDetermined(a[..i], b[..j]);
      assert a == a[..i] + [a[i]] && b == b[..j] + [b[j]];
    }
  }

  /** The last name of one side is found on the other, at most at its end. */
  lemma LastIsFound(a: Activity, b: Activity)
    requires Ordered(b) && forall name :: Lookup(a, name) == Lookup(b, name)
    ensures a != [] ==> b != [] && (a[|a| - 1].name == b[|b| - 1].name || Less(a[|a| - 1].name, b[|b| - 1].name))
    ensures a != [] && b != [] && a[|a| - 1].name == b[|b| - 1].name ==> a[|a| - 1] == b[|b| - 1]
  {
    if a != [] {
      var last := a[|a| - 1];
      assert Lookup(a, last.name) == Some(last.counts);
      FindFinds(b, |b|, last.name);
    }
  }

  lemma SilentIfEqual(title: string, before: Activity, after: Activity, network: bool)
    requires Ordered(before) && Ordered(after)
    ensures DiffLines(title, before, after, network) == [] <==> before == after
  {
    var lines := DiffLines(title, before, after, network);
    if lines == [] {
      forall name ensures Lookup(before, name) == Lookup(after, name) {
        LinesSayAll(title, before, after, network, name);
      }
      OrderedIsDetermined(before, after);
    } else if before == after {
      LinesSayAll(title, before, after, network, lines[0].name);
      LineIsAboutItsName(lines, lines[0]);
    }
  }

  /** A changed line shows the calls on both sides, and the failures or the bytes. */
  lemma {:induction false} ChangedLineSays(title: string, before: Activity, after: Activity, network: bool, l: Line)
    requires Ordered(before) && Ordered(after) && l in DiffLines(title, before, after, network) && l.Changed?
    ensures l.title == title && Lookup(before, l.name).Some? && Lookup(after, l.name).Some?
    ensures var x, y := Lookup(before, l.name).value, Lookup(after, l.name).value;
            && x != y && l.callsBefore == x.calls && l.callsAfter == y.calls
            && (network ==> l.amount == Failures(x.failures, y.failures))
            && (!network ==> l.amount == Bytes(x.bytes, y.bytes))
  {
    LineIsAboutItsName(DiffLines(title, before, after, network), l);
    LinesSayAll(title, before, after, network, l.name);
  }

  /** Lines of names in ascending order, all of them below a bound if there is one. */
  predicate InOrder(lines: seq<Line>) {
    forall i, j | 0 <= i < j < |lines| :: Less(lines[i].name, lines[j].name)
  }

  predicate Below(lines: seq<Line>, a: Activity, k: nat)
    requires k <= |a|
  {
    forall l <- lines :: exists i | 0 <= i < k :: a[i].name == l.name
  }

  lemma OrderGrows(lines: seq<Line>, more: seq<Line>, a: Activity, k: nat)
    requires k < |a| && Ordered(a) && InOrder(lines) && Below(lines, a, k)
    requires |more| <= 1 && forall l <- more :: l.name == a[k].name
    ensures InOrder(lines + more) && Below(lines + more, a, k + 1)
  {
    forall i | 0 <= i < |lines| ensures Less(lines[i].name, a[k].name) {
      assert lines[i] in lines;
    }
    forall l <- lines + more ensures exists i | 0 <= i < k + 1 :: a[i].name == l.name {
      if l in lines {
        var i :| 0 <= i < k && a[i].name == l.name;
      } else {
        assert a[k].name == l.name;
      }
    }
  }

  lemma OneLineBefore(title: string, item: Item, after: Activity, network: bool)
    ensures var lines := OnBefore(title, item, after, network);
            |lines| <= 1 && forall l <- lines :: l.name == item.name && !l.Added?
  {
  }

  lemma {:induction false} FirstPartInOrder(title: string, before: Activity, k: nat, after: Activity, network: bool)
    requires k <= |before| && Ordered(before)
    ensures var lines := FirstPart(title, before, k, after, network);
            InOrder(lines) && Below(lines, before, k) && forall l <- lines :: !l.Added?
  {
    if k > 0 {
      FirstPartInOrder(title, before, k - 1, after, network);
      OneLineBefore(title, before[k - 1], after, network);
      OrderGrows(FirstPart(title, before, k - 1, after, network),
                 OnBefore(title, before[k - 1], after, network), before, k - 1);
    }
  }

  lemma {:induction false} SecondPartInOrder(title: string, before: Activity, after: Activity, k: nat)
    requires k <= |after| && Ordered(after)
    ensures var lines := SecondPart(title, before, after, k);
            InOrder(lines) && Below(lines, after, k) && forall l <- lines :: l.Added?
  {
    if k > 0 {
      SecondPartInOrder(title, before, after, k - 1);
      OrderGrows(SecondPart(title, before, after, k - 1), OnAfter(title, after[k - 1], before), after, k - 1);
    }
  }

  /** Removals and changes come first and additions behind them, both in ascending order of the names. */
  lemma {:induction false} LinesInOrder(title: string, before: Activity, after: Activity, network: bool) returns (n: nat)
    requires Ordered(before) && Ordered(after)
    ensures var lines := DiffLines(title, before, after, network);
            && n <= |lines| && InOrder(lines[..n]) && InOrder(lines[n..])
            && (forall i | 0 <= i < |lines| :: lines[i].Added? <==> i >= n)
  {
    FirstPartInOrder(title, before, |before|, after, network);
    SecondPartInOrder(title, before, after, |after|);
    var first, second := FirstPart(title, before, |before|, after, network), SecondPart(title, before, after, |after|);
    n := |first|;
    assert (first + second)[..n] == first && (first + second)[n..] == second;
  }

  // ---- Turning the comparison round ----

  function Turned(l: Line): Line {
    match l
    case Removed(title, name) => Added(title, name)
    case Added(title, name) => Removed(title, name)
    case Changed(title, name, c, d, Bytes(x, y)) => Changed(title, name, d, c, Bytes(y, x))
    case Changed(title, name, c, d, Failures(x, y)) => Changed(title, name, d, c, Failures(y, x))
  }

  lemma LineIsExpected(title: string, before: Activity, after: Activity, network: bool, l: Line)
    requires Ordered(before) && Ordered(after)
    ensures l in DiffLines(title, before, after, network) <==>
            l in Expected(title, l.name, Lookup(before, l.name), Lookup(after, l.name), network)
  {
    LineIsAboutItsName(DiffLines(title, before, after, network), l);
    LinesSayAll(title, before, after, network, l.name);
  }

  lemma ExpectedTurns(title: string, x: Option<Counts>, y: Option<Counts>, network: bool, l: Line)
    ensures l in Expected(title, l.name, x, y, network) <==>
            Turned(l) in Expected(title, l.name, y, x, network)
    ensures Turned(l).name == l.name
  {
  }

  /** Swapping the capsules swaps + and - and the two sides of every change. */
  lemma SwappedDiff(title: string, before: Activity, after: Activity, network: bool, l: Line)
    requires Ordered(before) && Ordered(after)
    ensures l in DiffLines(title, before, after, network) <==> Turned(l) in DiffLines(title, after, before, network)
  {
    ExpectedTurns(title, Lookup(before, l.name), Lookup(after, l.name), network, l);
    LineIsExpected(title, before, after, network, l);
    LineIsExpected(title, after, before, network, Turned(l));
  }

  // ---- Sets ----

  predicate OrderedNames(names: seq<string>) {
    forall i, j | 0 <= i < j < |names| :: Less(names[i], names[j])
  }

  /** A set of names is an activity without counts. */
  function Uncounted(names: seq<string>): (a: Activity)
    ensures |a| == |names| && forall i | 0 <= i < |a| :: a[i] == Item(names[i], Counts(0, 0, 0, 0))
  {
    seq(|names|, i requires 0 <= i < |names| => Item(names[i], Counts(0, 0, 0, 0)))
  }

  lemma UncountedContains(names: seq<string>, name: string)
    ensures Lookup(Uncounted(names), name) == if name in names then Some(Counts(0, 0, 0, 0)) else None
  {
    var a := Uncounted(names);
    FindFinds(a, |a|, name);
    if name in names {
      var i :| 0 <= i < |names| && names[i] == name;
      assert a[i].name == name;
    }
  }

  function RemovedNames(before: seq<string>, k: nat, after: seq<string>): seq<Line>
    requires k <= |before|
  {
    if k == 0 then []
    else RemovedNames(before, k - 1, after) + (if before[k - 1] in after then [] else [Removed("", before[k - 1])])
  }

  function AddedNames(before: seq<string>, after: seq<string>, k: nat): seq<Line>
    requires k <= |after|
  {
    if k == 0 then []
    else AddedNames(before, after, k - 1) + (if after[k - 1] in before then [] else [Added("", after[k - 1])])
  }

  lemma {:induction false} UncountedRemovals(before: seq<string>, k: nat, after: seq<string>)
    requires k <= |before|
    ensures FirstPart("", Uncounted(before), k, Uncounted(after), false) == RemovedNames(before, k, after)
  {
    if k > 0 {
      UncountedRemovals(before, k - 1, after);
      UncountedContains(after, before[k - 1]);
    }
  }

  lemma {:induction false} UncountedAdditions(before: seq<string>, after: seq<string>, k: nat)
    requires k <= |after|
    ensures SecondPart("", Uncounted(before), Uncounted(after), k) == AddedNames(before, after, k)
  {
    if k > 0 {
      UncountedAdditions(before, after, k - 1);
      UncountedContains(before, after[k - 1]);
    }
  }

  lemma UncountedIsFaithful(before: seq<string>, after: seq<string>)
    requires OrderedNames(before) && OrderedNames(after)
    ensures DiffLines("", Uncounted(before), Uncounted(after), false) == [] <==> before == after
  {
    var a, b := Uncounted(before), Uncounted(after);
    SilentIfEqual("", a, b, false);
    if a == b {
      forall i | 0 <= i < |before| ensures before[i] == after[i] {
        assert a[i] == b[i];
      }
    }
  }

  lemma {:induction false} SetLines(before: seq<string>, after: seq<string>)
    requires OrderedNames(before) && OrderedNames(after)
    ensures var lines := RemovedNames(before, |before|, after) + AddedNames(before, after, |after|);
            && lines == DiffLines("", Uncounted(before), Uncounted(after), false)
            && (lines == [] <==> before == after)
  {
    UncountedRemovals(before, |before|, after);
    UncountedAdditions(before, after, |after|);
    UncountedIsFaithful(before, after);
  }

  method PrintSetDiff(before: seq<string>, after: seq<string>) returns (lines: seq<Line>, changed: bool)
    requires OrderedNames(before) && OrderedNames(after)
    ensures lines == DiffLines("", Uncounted(before), Uncounted(after), false)
    ensures changed <==> before != after
  {
    lines, changed := [], false;
    for i := 0 to |before|
      invariant lines == RemovedNames(before, i, after)
      invariant changed <==> lines != []
    {
      if before[i] !in after {
        lines := lines + [Removed("", before[i])];
        changed := true;
      }
    }
    ghost var first := lines;
    for j := 0 to |after|
      invariant lines == first + AddedNames(before, after, j)
      invariant changed <==> lines != []
    {
      if after[j] !in before {
        lines := lines + [Added("", after[j])];
        changed := true;
      }
    }
    SetLines(before, after);
  }

  // ---- A changed line shows a change ----

  /** The counts that a network or local IPC row can hold. */
  ghost predicate Balanced(a: Activity) {
    forall name :: Lookup(a, name).Some? ==>
      var c := Lookup(a, name).value; c.calls == c.successes + c.failures && c.bytes == 0
  }

  /** The counts that a file row can hold. */
  ghost predicate Unjudged(a: Activity) {
    forall name :: Lookup(a, name).Some? ==> var c := Lookup(a, name).value; c.successes == c.failures == 0
  }

  predicate ShowsChange(l: Line) {
    l.Changed? ==> l.callsBefore != l.callsAfter || l.amount.before != l.amount.after
  }

  lemma ChangesAreShown(title: string, before: Activity, after: Activity, network: bool, l: Line)
    requires Ordered(before) && Ordered(after) && l in DiffLines(title, before, after, network)
    requires if network then Balanced(before) && Balanced(after) else Unjudged(before) && Unjudged(after)
    ensures ShowsChange(l)
  {
    LineIsExpected(title, before, after, network, l);
  }

  /** An activity loaded from the capsule of a recording. */
  ghost predicate NetworkOfRun(a: Activity, setup: Runs.Setup, cs: seq<Runs.Callback>) {
    && Runs.Trace(setup, cs).Accepted? && Runs.FreshPids(setup, cs)
    && Store(Runs.Trace(setup, cs).events).Success?
    && Ordered(a)
    && forall name :: Lookup(a, name) == NetworkOf(Store(Runs.Trace(setup, cs).events).value.network, name)
  }

  ghost predicate LocalIpcOfRun(a: Activity, setup: Runs.Setup, cs: seq<Runs.Callback>) {
    && Runs.Trace(setup, cs).Accepted? && Runs.FreshPids(setup, cs)
    && Store(Runs.Trace(setup, cs).events).Success?
    && Ordered(a)
    && forall name ::
         Lookup(a, name) ==
         LocalOf(Queries.LocalConnects(Store(Runs.Trace(setup, cs).events).value.events, Queries.All), name)
  }

  lemma NetworkIsBalanced(a: Activity, setup: Runs.Setup, cs: seq<Runs.Callback>)
    requires NetworkOfRun(a, setup, cs)
    ensures Balanced(a)
  {
    Recording.LogIsReadable(setup, cs);
    Queries.NetworkTableIsFold(Runs.Trace(setup, cs).events);
  }

  lemma {:induction false} RowErrnos(log: seq<Event>)
    requires Store(log).Success? && forall e <- log :: e.errno >= 0
    ensures forall row <- Store(log).value.events :: row.errno >= 0
  {
    if log != [] {
      var before := log[..|log| - 1];
      assert log[|log| - 1] in log && forall e <- before :: e in log;
      RowErrnos(before);
      Queries.InsertFrame(Store(before).value, log[|log| - 1]);
    }
  }

  lemma LocalIpcIsBalanced(a: Activity, setup: Runs.Setup, cs: seq<Runs.Callback>)
    requires LocalIpcOfRun(a, setup, cs)
    ensures Balanced(a)
  {
    var log := Runs.Trace(setup, cs).events;
    Recording.LogIsReadable(setup, cs);
    RowErrnos(log);
    var rows := Store(log).value.events;
    forall name | Lookup(a, name).Some?
      ensures var c := Lookup(a, name).value; c.calls == c.successes + c.failures && c.bytes == 0
    {
      Queries.AttemptsBalance(rows, Queries.Selection(LocalIpcConnect, name, Queries.All));
    }
  }

  /**
   When the capsules of two recordings are compared, every changed line of the Network and
   Local IPC sections shows two different numbers, although successes are not printed.
   */
  lemma ConnectionChangesAreShown(
    before: Activity, setup: Runs.Setup, cs: seq<Runs.Callback>,
    after: Activity, setup': Runs.Setup, cs': seq<Runs.Callback>, l: Line)
    requires || (NetworkOfRun(before, setup, cs) && NetworkOfRun(after, setup', cs'))
             || (LocalIpcOfRun(before, setup, cs) && LocalIpcOfRun(after, setup', cs'))
    requires l in DiffLines("", before, after, true)
    ensures ShowsChange(l)
  {
    if NetworkOfRun(before, setup, cs) && NetworkOfRun(after, setup', cs') {
      NetworkIsBalanced(before, setup, cs);
      NetworkIsBalanced(after, setup', cs');
    } else {
      LocalIpcIsBalanced(before, setup, cs);
      LocalIpcIsBalanced(after, setup', cs');
    }
    ChangesAreShown("", before, after, true, l);
  }

  /** The same holds of the Files section, for any capsules. */
  lemma FileChangesAreShown(
    title: string, before: Activity, files: map<string, FileRow>, after: Activity, files': map<string, FileRow>,
    l: Line)
    requires Ordered(before) && Ordered(after) && l in DiffLines(title, before, after, false)
    requires || (forall path :: Lookup(before, path) == ReadsOf(files, path) && Lookup(after, path) == ReadsOf(files', path))
             || (forall path :: Lookup(before, path) == WritesOf(files, path) && Lookup(after, path) == WritesOf(files', path))
    ensures ShowsChange(l)
  {
    ChangesAreShown(title, before, after, false, l);
  }
}
