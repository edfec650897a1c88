/**
 The sending side of the command channel: the two functions that the session plants in bash,
 as far as they concern markers, and the bytes that their printf calls write.
 */
module Bash {
  import opened Wrappers
  import opened Text
  import opened Events
  import opened Protocol
  import MarkerLanguage

  // ---- The bytes of one marker ----

  /** A marker and what the history command prints before its mark; used for starts only. */
  datatype Sent = Sent(marker: CommandMarker, historyPrefix: string)

  /** The text of the last field of a start: history output ends with a newline. */
  function HistoryLine(prefix: string, text: string): string {
    prefix + [HISTORY_MARK] + text + "\n"
  }

  function FieldsOf(s: Sent): (fields: seq<string>)
    ensures |fields| == PROTOCOL_FIELDS
  {
    var id := Decimal(s.marker.id);
    match s.marker.kind
    case Arm => ["A", id, s.marker.cwd, ""]
    case Start => ["S", id, s.marker.cwd, HistoryLine(s.historyPrefix, s.marker.text)]
    case End => ["E", id, Decimal(s.marker.exitCode), s.marker.cwd]
  }

  function Bytes(sent: seq<Sent>): string {
    if sent == [] then "" else Bytes(sent[..|sent| - 1]) + Terminate(FieldsOf(sent[|sent| - 1]))
  }

  function AllFields(sent: seq<Sent>): seq<string> {
    if sent == [] then [] else AllFields(sent[..|sent| - 1]) + FieldsOf(sent[|sent| - 1])
  }

  function MarkersSent(sent: seq<Sent>): seq<CommandMarker> {
    if sent == [] then [] else MarkersSent(sent[..|sent| - 1]) + [sent[|sent| - 1].marker]
  }

  /** What a shell can send: no NUL bytes, a positive id, an int status, no mark in the prefix. */
  predicate Sendable(s: Sent) {
    && s.marker.id > 0
    && NulFree(s.marker.cwd) && NulFree(s.marker.text) && NulFree(s.historyPrefix)
    && HISTORY_MARK !in s.historyPrefix
    && -0x8000_0000 <= s.marker.exitCode < 0x8000_0000
    && (!s.marker.kind.Start? ==> s.marker.text == "")
    && (!s.marker.kind.End? ==> s.marker.exitCode == 0)
  }

  predicate Fits(s: Sent) {
    && |s.marker.cwd| <= MAXIMUM_FIELD_BYTES
    && (s.marker.kind.Start? ==> |HistoryLine(s.historyPrefix, s.marker.text)| <= MAXIMUM_FIELD_BYTES)
  }

  lemma {:induction false} AfterMark(prefix: string, text: string)
    requires HISTORY_MARK !in prefix
    ensures After(HISTORY_MARK, prefix + [HISTORY_MARK] + text) == Some(text)
  {
    var line := prefix + [HISTORY_MARK] + text;
    if prefix == "" {
      assert line[1..] == text;
    } else {
      assert line[0] == prefix[0] && line[1..] == prefix[1..] + [HISTORY_MARK] + text;
      assert prefix[0] in prefix;
      AfterMark(prefix[1..], text);
    }
  }

  /** One record is decoded to the marker that was sent, whatever its text contains. */
  lemma DecodeOfSent(s: Sent)
    requires Sendable(s)
    ensures Decode(FieldsOf(s)) == Success(s.marker)
  {
    FromCharsU64OfDecimal(s.marker.id);
    match s.marker.kind
    case Arm =>
    case Start =>
      var text := s.marker.text;
      assert HistoryLine(s.historyPrefix, text) == s.historyPrefix + [HISTORY_MARK] + (text + "\n");
      AfterMark(s.historyPrefix, text + "\n");
      assert (text + "\n")[..|text|] == text;
    case End =>
      FromCharsIntOfDecimal(s.marker.exitCode);
  }

  lemma FieldsAreNulFree(s: Sent)
    requires Sendable(s)
    ensures forall i | 0 <= i < 4 :: NulFree(FieldsOf(s)[i])
  {
    DecimalHasNoNul(s.marker.id);
    DecimalHasNoNul(s.marker.exitCode);
  }

  lemma {:induction false} TerminateConcat(a: seq<string>, b: seq<string>)
    ensures Terminate(a + b) == Terminate(a) + Terminate(b)
    decreases |b|
  {
    if b == [] {
      assert a + b == a;
    } else {
      var k := |b| - 1;
      assert (a + b)[..|a + b| - 1] == a + b[..k];
      TerminateConcat(a, b[..k]);
    }
  }

  lemma NulFreeConcat(a: seq<string>, b: seq<string>)
    requires forall i | 0 <= i < |a| :: NulFree(a[i])
    requires forall i | 0 <= i < |b| :: NulFree(b[i])
    ensures forall i | 0 <= i < |a + b| :: NulFree((a + b)[i])
  {
  }

  lemma {:induction false} SplitsMore(stream: string, fields: seq<string>, record: seq<string>)
    requires Splits(stream, fields, "") && forall i | 0 <= i < |record| :: NulFree(record[i])
    ensures Splits(stream + Terminate(record), fields + record, "")
  {
    TerminateConcat(fields, record);
    NulFreeConcat(fields, record);
    NothingBehind(Terminate(fields));
    NothingBehind(Terminate(fields + record));
  }

  lemma NothingBehind(s: string)
    ensures s + "" == s
  {
  }

  lemma {:induction false} BytesSplit(sent: seq<Sent>)
    requires forall s <- sent :: Sendable(s)
    ensures Splits(Bytes(sent), AllFields(sent), "")
  {
    if sent != [] {
      var k := |sent| - 1;
      BytesSplit(sent[..k]);
      FieldsAreNulFree(sent[k]);
      SplitsMore(Bytes(sent[..k]), AllFields(sent[..k]), FieldsOf(sent[k]));
    }
  }

  lemma {:induction false} FieldLengthens(fields: seq<string>, field: string, unfinished: seq<string>)
    requires Unfinished(fields) == unfinished && |unfinished| < 3
    ensures Unfinished(fields + [field]) == unfinished + [field]
    ensures Records(fields + [field]) == Records(fields)
  {
    RecordsOfMore(fields, field);
    assert Records(fields) + [] == Records(fields);
  }

  lemma {:induction false} FieldCompletes(fields: seq<string>, field: string, unfinished: seq<string>)
    requires Unfinished(fields) == unfinished && |unfinished| == 3
    ensures Unfinished(fields + [field]) == []
    ensures Records(fields + [field]) == Records(fields) + [unfinished + [field]]
  {
    RecordsOfMore(fields, field);
  }

  lemma {:induction false} FourMoreFields(fields: seq<string>, a: string, b: string, c: string, d: string)
    requires Unfinished(fields) == []
    ensures Records(fields + [a] + [b] + [c] + [d]) == Records(fields) + [[] + [a] + [b] + [c] + [d]]
    ensures Unfinished(fields + [a] + [b] + [c] + [d]) == []
  {
    FieldLengthens(fields, a, []);
    FieldLengthens(fields + [a], b, [] + [a]);
    FieldLengthens(fields + [a] + [b], c, [] + [a] + [b]);
    FieldCompletes(fields + [a] + [b] + [c], d, [] + [a] + [b] + [c]);
  }

  lemma {:induction false} DecodesToSent(sent: seq<Sent>)
    requires forall s <- sent :: Sendable(s)
    ensures Unfinished(AllFields(sent)) == []
    ensures MarkersOf(AllFields(sent)) == Success(MarkersSent(sent))
  {
    if sent != [] {
      var k := |sent| - 1;
      var before, record := AllFields(sent[..k]), FieldsOf(sent[k]);
      DecodesToSent(sent[..k]);
      DecodeOfSent(sent[k]);
      RecordDecodes(before, record);
      assert AllFields(sent) == before + record;
    }
  }

  lemma RecordDecodes(before: seq<string>, record: seq<string>)
    requires Unfinished(before) == [] && |record| == PROTOCOL_FIELDS
    requires MarkersOf(before).Success? && Decode(record).Success?
    ensures Unfinished(before + record) == []
    ensures MarkersOf(before + record) == Success(MarkersOf(before).value + [Decode(record).value])
  {
    FourMoreFields(before, record[0], record[1], record[2], record[3]);
    assert before + [record[0]] + [record[1]] + [record[2]] + [record[3]] == before + record;
    assert [] + [record[0]] + [record[1]] + [record[2]] + [record[3]] == record;
    RecordsHaveFour(before);
    DecodeOneMore(Records(before), record);
  }

  /** Numbers of 64 bits take at most twenty digits. */
  lemma DecimalFits(n: int)
    requires -0x8000_0000 <= n < 0x1_0000_0000_0000_0000
    ensures |Decimal(n)| <= 21
  {
    assert Power10(5) == 100_000;
    assert Power10(10) == 10_000_000_000 by {
      assert Power10(7) == 10_000_000;
      assert Power10(9) == 1_000_000_000;
    }
    assert Power10(13) == 10_000_000_000_000 by {
      assert Power10(12) == 1_000_000_000_000;
    }
    assert Power10(16) == 10_000_000_000_000_000 by {
      assert Power10(15) == 1_000_000_000_000_000;
    }
    assert Power10(18) == 1_000_000_000_000_000_000;
    assert Power10(20) == 100_000_000_000_000_000_000;
    DecimalNatLength(Abs(n), 20, Power10(20));
  }

  lemma {:induction false} SentFieldsFit(sent: seq<Sent>)
    requires forall s <- sent :: Sendable(s) && Fits(s)
    ensures FieldsFit(AllFields(sent), "")
  {
    if sent != [] {
      var k := |sent| - 1;
      SentFieldsFit(sent[..k]);
      RecordFits(sent[k]);
      var before, record := AllFields(sent[..k]), FieldsOf(sent[k]);
      forall i | 0 <= i < |before + record| ensures |(before + record)[i]| <= MAXIMUM_FIELD_BYTES {
        if i >= |before| {
          assert (before + record)[i] == record[i - |before|];
        }
      }
    }
  }

  lemma RecordFits(s: Sent)
    requires Sendable(s) && Fits(s)
    ensures forall i | 0 <= i < 4 :: |FieldsOf(s)[i]| <= MAXIMUM_FIELD_BYTES
  {
    DecimalFits(s.marker.id);
    DecimalFits(s.marker.exitCode);
  }

  /**
   Whatever the shell sends is read back, marker by marker, with nothing left over; texts may
   contain the history mark themselves or end in newlines.
   */
  lemma {:induction false} ReceivedAsSent(sent: seq<Sent>)
    requires forall s <- sent :: Sendable(s) && Fits(s)
    ensures Feed(IDLE, Bytes(sent)) == Success((IDLE, MarkersSent(sent)))
  {
    BytesSplit(sent);
    DecodesToSent(sent);
    SentFieldsFit(sent);
    ParsesExactly(Bytes(sent), AllFields(sent), "");
  }

  // ---- The two shell functions ----

  /** __whyrun_skip_debug, __whyrun_at_prompt, __whyrun_sequence and __whyrun_active_command. */
  datatype Shell = Shell(skipDebug: nat, atPrompt: bool, sequence: nat, active: nat)

  const FRESH := Shell(0, false, 0, 0)

  /** __whyrun_start, run by the DEBUG trap; __whyrun_prompt, run by PROMPT_COMMAND. */
  datatype Action = Trap(pwd: string, historyPrefix: string, text: string) | Prompt(status: I32, pwd: string)

  function StartFunction(shell: Shell, a: Action): (Shell, seq<Sent>)
    requires a.Trap? && shell.active < 0x8000_0000_0000_0000
  {
    if shell.skipDebug > 0 then (shell.(skipDebug := shell.skipDebug - 1), [])
    else if shell.atPrompt then
      (shell.(atPrompt := false),
       [Sent(CommandMarker(Start, shell.active, a.text, a.pwd, 0), a.historyPrefix)])
    else (shell, [])
  }

  function PromptFunction(shell: Shell, a: Action): (Shell, seq<Sent>)
    requires a.Prompt? && shell.active < 0x8000_0000_0000_0000 && shell.sequence + 1 < 0x8000_0000_0000_0000
  {
    var next := shell.sequence + 1;
    (Shell(1, true, next, next),
     (if shell.active > 0 then [Sent(CommandMarker(End, shell.active, "", a.pwd, a.status), "")] else []) +
     [Sent(CommandMarker(Arm, next, "", a.pwd, 0), "")])
  }

  function React(shell: Shell, a: Action): (Shell, seq<Sent>)
    requires shell.active < 0x8000_0000_0000_0000 && shell.sequence + 1 < 0x8000_0000_0000_0000
  {
    if a.Trap? then StartFunction(shell, a) else PromptFunction(shell, a)
  }

  /** A whole session: the shell's variables and all that was sent. */
  function Session(actions: seq<Action>): (r: (Shell, seq<Sent>))
    requires |actions| < 0x7FFF_FFFF_FFFF_FFFF
    ensures r.0.active <= |actions| && r.0.sequence <= |actions|
  {
    if actions == [] then (FRESH, [])
    else
      var (shell, sent) := Session(actions[..|actions| - 1]);
      var (shell1, more) := React(shell, actions[|actions| - 1]);
      (shell1, sent + more)
  }

  function Prompts(actions: seq<Action>): nat {
    if actions == [] then 0
    else Prompts(actions[..|actions| - 1]) + (if actions[|actions| - 1].Prompt? then 1 else 0)
  }

  function TrapsSincePrompt(actions: seq<Action>): nat {
    if actions == [] || actions[|actions| - 1].Prompt? then 0
    else 1 + TrapsSincePrompt(actions[..|actions| - 1])
  }

  /** Between two prompts the trap fires at least twice: the first time is the one to be skipped. */
  predicate WellPaced(actions: seq<Action>) {
    forall k | 0 <= k < |actions| :: actions[k].Prompt? && Prompts(actions[..k]) > 0 ==>
      TrapsSincePrompt(actions[..k]) >= 2
  }

  lemma {:induction false} WellPacedOneMore(actions: seq<Action>, a: Action)
    ensures WellPaced(actions + [a]) <==>
            WellPaced(actions) && (a.Prompt? && Prompts(actions) > 0 ==> TrapsSincePrompt(actions) >= 2)
  {
    var all := actions + [a];
    assert all[..|actions|] == actions;
    forall k | 0 <= k < |actions| ensures all[..k] == actions[..k] && all[k] == actions[k] {
    }
    if WellPaced(all) {
      forall k | 0 <= k < |actions| && actions[k].Prompt? && Prompts(actions[..k]) > 0
        ensures TrapsSincePrompt(actions[..k]) >= 2
      {
        assert all[k].Prompt? && all[..k] == actions[..k];
      }
      assert all[|actions|] == a;
    }
  }

  /** The shell's variables and the number of its markers, in terms of prompts and traps. */
  ghost predicate Paced(actions: seq<Action>, shell: Shell, markers: seq<CommandMarker>) {
    var n, traps := Prompts(actions), TrapsSincePrompt(actions);
    && shell.sequence == n && shell.active == n
    && MarkerLanguage.InLanguage(markers)
    && (if n == 0 then shell.skipDebug == 0 && !shell.atPrompt && markers == []
        else
          && shell.skipDebug == (if traps == 0 then 1 else 0)
          && shell.atPrompt == (traps < 2)
          && |markers| == 3 * (n - 1) + (if traps < 2 then 1 else 2)
          && markers[|markers| - 1].id == n)
  }

  lemma {:induction false} MarkersSentMore(sent: seq<Sent>, more: seq<Sent>)
    ensures MarkersSent(sent + more) == MarkersSent(sent) + MarkersSent(more)
    decreases |more|
  {
    if more == [] {
      assert sent + more == sent;
    } else {
      var k := |more| - 1;
      assert (sent + more)[..|sent + more| - 1] == sent + more[..k];
      MarkersSentMore(sent, more[..k]);
    }
  }

  lemma MarkersOfOne(s: Sent)
    ensures MarkersSent([s]) == [s.marker]
  {
    assert [s][..0] == [];
  }

  lemma MarkersOfTwo(s: Sent, t: Sent)
    ensures MarkersSent([s, t]) == [s.marker, t.marker]
  {
    assert [s, t][..1] == [s];
    MarkersOfOne(s);
  }

  lemma {:induction false} CountsOneMore(actions: seq<Action>, a: Action)
    ensures Prompts(actions + [a]) == Prompts(actions) + (if a.Prompt? then 1 else 0)
    ensures TrapsSincePrompt(actions + [a]) == if a.Prompt? then 0 else TrapsSincePrompt(actions) + 1
  {
    assert (actions + [a])[..|actions|] == actions;
  }

  /** The second trap after a prompt sends the start. */
  lemma {:induction false} SecondTrapIsPaced(actions: seq<Action>, shell: Shell, markers: seq<CommandMarker>, a: Action)
    requires Paced(actions, shell, markers) && a.Trap?
    requires Prompts(actions) > 0 && TrapsSincePrompt(actions) == 1
    requires shell.active < 0x8000_0000_0000_0000 && shell.sequence + 1 < 0x8000_0000_0000_0000
    ensures Paced(actions + [a], React(shell, a).0, markers + MarkersSent(React(shell, a).1))
  {
    var more := React(shell, a).1;
    CountsOneMore(actions, a);
    var start := CommandMarker(Start, shell.active, a.text, a.pwd, 0);
    assert more == [Sent(start, a.historyPrefix)];
    MarkersOfOne(Sent(start, a.historyPrefix));
    assert |markers| % 3 == 1;
    MarkerLanguage.LanguageExtends(markers, start);
  }

  /** Any other trap sends nothing. */
  lemma {:induction false} OtherTrapIsPaced(actions: seq<Action>, shell: Shell, markers: seq<CommandMarker>, a: Action)
    requires Paced(actions, shell, markers) && a.Trap?
    requires Prompts(actions) == 0 || TrapsSincePrompt(actions) != 1
    requires shell.active < 0x8000_0000_0000_0000 && shell.sequence + 1 < 0x8000_0000_0000_0000
    ensures Paced(actions + [a], React(shell, a).0, markers + MarkersSent(React(shell, a).1))
  {
    CountsOneMore(actions, a);
    assert React(shell, a).1 == [];
    assert markers + MarkersSent([]) == markers;
  }

  lemma {:induction false} FirstPromptIsPaced(actions: seq<Action>, shell: Shell, markers: seq<CommandMarker>, a: Action)
    requires Paced(actions, shell, markers) && a.Prompt? && Prompts(actions) == 0
    ensures Paced(actions + [a], React(shell, a).0, markers + MarkersSent(React(shell, a).1))
  {
    var arm := CommandMarker(Arm, 1, "", a.pwd, 0);
    assert React(shell, a).1 == [Sent(arm, "")];
    MarkersOfOne(Sent(arm, ""));
    assert markers + [arm] == [arm];
    CountsOneMore(actions, a);
    OneArm(arm);
  }

  lemma OneArm(arm: CommandMarker)
    requires arm.kind.Arm?
    ensures MarkerLanguage.InLanguage([arm])
  {
  }

  lemma {:induction false} LaterPromptIsPaced(actions: seq<Action>, shell: Shell, markers: seq<CommandMarker>, a: Action)
    requires Paced(actions, shell, markers) && a.Prompt? && Prompts(actions) > 0
    requires shell.active < 0x8000_0000_0000_0000 && shell.sequence + 1 < 0x8000_0000_0000_0000
    ensures var all := markers + MarkersSent(React(shell, a).1);
            if TrapsSincePrompt(actions) < 2 then !MarkerLanguage.InLanguage(all)
            else Paced(actions + [a], React(shell, a).0, all)
  {
    var end := CommandMarker(End, shell.active, "", a.pwd, a.status);
    var arm := CommandMarker(Arm, shell.sequence + 1, "", a.pwd, 0);
    assert React(shell, a).1 == [Sent(end, ""), Sent(arm, "")];
    MarkersOfTwo(Sent(end, ""), Sent(arm, ""));
    CountsOneMore(actions, a);
    assert markers + [end, arm] == markers + [end] + [arm];
    assert |markers| % 3 == if TrapsSincePrompt(actions) < 2 then 1 else 2;
    MarkerLanguage.LanguageExtends(markers, end);
    MarkerLanguage.LanguageExtends(markers + [end], arm);
  }

  lemma {:induction false} LanguagePrefix(a: seq<CommandMarker>, b: seq<CommandMarker>)
    requires MarkerLanguage.InLanguage(a + b)
    ensures MarkerLanguage.InLanguage(a)
  {
    forall k | 0 <= k < |a| ensures MarkerLanguage.InPlace(a, k) {
      assert MarkerLanguage.InPlace(a + b, k) && (a + b)[k] == a[k];
    }
  }

  /**
   The prompt function sends an end for every active command, started or not. So the markers
   of a session are acceptable exactly if the trap fired at least twice between any two prompts.
   */
  lemma {:induction false} AcceptableExactly(actions: seq<Action>)
    requires |actions| < 0x7FFF_FFFF_FFFF_FFFF
    ensures MarkerLanguage.InLanguage(MarkersSent(Session(actions).1)) <==> WellPaced(actions)
    ensures WellPaced(actions) ==> Paced(actions, Session(actions).0, MarkersSent(Session(actions).1))
  {
    if actions != [] {
      var before, a := actions[..|actions| - 1], actions[|actions| - 1];
      assert actions == before + [a];
      AcceptableExactly(before);
      WellPacedOneMore(before, a);
      var (shell, sent) := Session(before);
      var more := React(shell, a).1;
      MarkersSentMore(sent, more);
      if WellPaced(before) {
        if a.Trap? && Prompts(before) > 0 && TrapsSincePrompt(before) == 1 {
          SecondTrapIsPaced(before, shell, MarkersSent(sent), a);
        } else if a.Trap? {
          OtherTrapIsPaced(before, shell, MarkersSent(sent), a);
        } else if Prompts(before) == 0 {
          FirstPromptIsPaced(before, shell, MarkersSent(sent), a);
        } else {
          LaterPromptIsPaced(before, shell, MarkersSent(sent), a);
        }
      } else if MarkerLanguage.InLanguage(MarkersSent(sent) + MarkersSent(more)) {
        LanguagePrefix(MarkersSent(sent), MarkersSent(more));
      }
    }
  }

  /** Two prompts without a trap between them: the end of a command comes without its start. */
  lemma PromptAfterPromptIsRefused() returns (actions: seq<Action>)
    ensures |actions| == 2 && actions[0].Prompt? && actions[1].Prompt?
    ensures !WellPaced(actions) && !MarkerLanguage.InLanguage(MarkersSent(Session(actions).1))
  {
    var first, second := Prompt(0, "/"), Prompt(0, "/");
    CountsOneMore([], first);
    assert [] + [first] == [first] && Prompts([first]) == 1 && TrapsSincePrompt([first]) == 0;
    WellPacedOneMore([first], second);
    actions := [first] + [second];
    AcceptableExactly(actions);
  }

  // ---- What is printed, byte by byte ----

  lemma {:induction false} FourFields(a: string, b: string, c: string, d: string)
    ensures Terminate([a, b, c, d]) == a + "\0" + b + "\0" + c + "\0" + d + "\0"
  {
    assert [a, b, c, d][..3] == [a, b, c] && [a, b, c][..2] == [a, b] && [a, b][..1] == [a] && [a][..0] == [];
    assert Terminate([a]) == a + "\0";
    assert Terminate([a, b]) == Terminate([a]) + b + "\0";
    assert Terminate([a, b, c]) == Terminate([a, b]) + c + "\0";
    assert Terminate([a, b, c, d]) == Terminate([a, b, c]) + d + "\0";
  }

  /** The three printf formats; a start goes on with the output of history and a NUL byte. */
  lemma {:induction false} PrintedFormats(s: Sent)
    ensures var id := Decimal(s.marker.id);
            Bytes([s]) ==
            match s.marker.kind
            case Arm => "A" + "\0" + id + "\0" + s.marker.cwd + "\0" + "" + "\0"
            case Start =>
              "S" + "\0" + id + "\0" + s.marker.cwd + "\0" + HistoryLine(s.historyPrefix, s.marker.text) + "\0"
            case End => "E" + "\0" + id + "\0" + Decimal(s.marker.exitCode) + "\0" + s.marker.cwd + "\0"
  {
    var f := FieldsOf(s);
    assert [s][..0] == [] && f == [f[0], f[1], f[2], f[3]];
    FourFields(f[0], f[1], f[2], f[3]);
    assert "" + Terminate(f) == Terminate(f);
  }

  // ---- What each action sends, in terms of prompts and traps ----

  /** The shell's variables count the prompts and the traps since the last one, however they are paced. */
  predicate Counts(actions: seq<Action>, shell: Shell) {
    var n, traps := Prompts(actions), TrapsSincePrompt(actions);
    && shell.sequence == n && shell.active == n
    && (n == 0 ==> shell.skipDebug == 0 && !shell.atPrompt)
    && (n > 0 ==> shell.skipDebug == (if traps == 0 then 1 else 0) && shell.atPrompt == (traps < 2))
  }

  lemma {:induction false} ShellCounts(actions: seq<Action>)
    requires |actions| < 0x7FFF_FFFF_FFFF_FFFF
    ensures Counts(actions, Session(actions).0)
  {
    if actions != [] {
      var before, a := actions[..|actions| - 1], actions[|actions| - 1];
      assert actions == before + [a];
      ShellCounts(before);
      CountsOneMore(before, a);
    }
  }

  lemma {:induction false} SessionOneMore(actions: seq<Action>, a: Action)
    requires |actions| + 1 < 0x7FFF_FFFF_FFFF_FFFF
    ensures MarkersSent(Session(actions + [a]).1) ==
            MarkersSent(Session(actions).1) + MarkersSent(React(Session(actions).0, a).1)
  {
    assert (actions + [a])[..|actions|] == actions;
    MarkersSentMore(Session(actions).1, React(Session(actions).0, a).1);
  }

  lemma {:induction false} PromptReacts(shell: Shell, n: U64, status: I32, pwd: string)
    requires shell.sequence == shell.active == n < 0x7FFF_FFFF_FFFF_FFFF
    ensures MarkersSent(React(shell, Prompt(status, pwd)).1) ==
            if n == 0 then [CommandMarker(Arm, 1, "", pwd, 0)]
            else [CommandMarker(End, n, "", pwd, status), CommandMarker(Arm, n + 1, "", pwd, 0)]
  {
    var sent := React(shell, Prompt(status, pwd)).1;
    if n == 0 {
      MarkersOfOne(sent[0]);
      assert sent == [sent[0]];
    } else {
      MarkersOfTwo(sent[0], sent[1]);
      assert sent == [sent[0], sent[1]];
    }
  }

  /** A prompt ends the command of the prompt before it, with the status and directory it sees, and arms the next. */
  lemma {:induction false} PromptSends(actions: seq<Action>, status: I32, pwd: string)
    requires |actions| + 1 < 0x7FFF_FFFF_FFFF_FFFF
    ensures Prompts(actions) < 0x7FFF_FFFF_FFFF_FFFF
    ensures var before, n := MarkersSent(Session(actions).1), Prompts(actions);
            MarkersSent(Session(actions + [Prompt(status, pwd)]).1) ==
            if n == 0 then before + [CommandMarker(Arm, 1, "", pwd, 0)]
            else before + [CommandMarker(End, n, "", pwd, status), CommandMarker(Arm, n + 1, "", pwd, 0)]
  {
    ShellCounts(actions);
    SessionOneMore(actions, Prompt(status, pwd));
    PromptReacts(Session(actions).0, Prompts(actions), status, pwd);
  }

  /** The second trap after a prompt, and no other, starts the command, with its own text and directory. */
  lemma {:induction false} TrapSends(actions: seq<Action>, pwd: string, prefix: string, text: string)
    requires |actions| + 1 < 0x7FFF_FFFF_FFFF_FFFF
    ensures Prompts(actions) < 0x7FFF_FFFF_FFFF_FFFF
    ensures var before, n := MarkersSent(Session(actions).1), Prompts(actions);
            MarkersSent(Session(actions + [Trap(pwd, prefix, text)]).1) ==
            if n > 0 && TrapsSincePrompt(actions) == 1 then before + [CommandMarker(Start, n, text, pwd, 0)]
            else before
  {
    var a := Trap(pwd, prefix, text);
    var shell := Session(actions).0;
    ShellCounts(actions);
    SessionOneMore(actions, a);
    var sent := React(shell, a).1;
    if sent != [] {
      MarkersOfOne(sent[0]);
      assert sent == [sent[0]];
    } else {
      assert MarkersSent(Session(actions).1) + [] == MarkersSent(Session(actions).1);
    }
  }
}
