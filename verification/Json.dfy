/**
 metadata_json and its inverse: a parser for JSON objects of strings (sections 2, 4 and 7 of
 RFC 8259) that decodes the escapes of the code points below U+0080.
 */
module Json {
  import opened Wrappers
  import opened Ordering
  import Text

  // ---- Escaping ----

  /** Four hexadecimal digits, as setw(4) and setfill('0') print them. */
  function Hex4(n: nat): string
    requires n < 0x1_0000
  {
    [Text.HexDigit(n / 0x1000), Text.HexDigit(n / 0x100 % 16), Text.HexDigit(n / 16 % 16), Text.HexDigit(n % 16)]
  }

  function EscapeChar(c: char): string {
    if c == '"' then "\\\""
    else if c == '\\' then "\\\\"
    else if c == '\U{8}' then "\\b"
    else if c == '\U{c}' then "\\f"
    else if c == '\n' then "\\n"
    else if c == '\r' then "\\r"
    else if c == '\t' then "\\t"
    else if c < ' ' then "\\u" + Hex4(c as nat)
    else [c]
  }

  function Escape(s: string): string {
    if s == "" then "" else Escape(s[..|s| - 1]) + EscapeChar(s[|s| - 1])
  }

  method JsonEscape(input: string) returns (output: string)
    ensures output == Escape(input)
  {
    output := "";
    for i := 0 to |input|
      invariant output == Escape(input[..i])
    {
      assert input[..i + 1][..i] == input[..i];
      var character := input[i];
      match character {
        case '"' => output := output + "\\\"";
        case '\\' => output := output + "\\\\";
        case '\U{8}' => output := output + "\\b";
        case '\U{c}' => output := output + "\\f";
        case '\n' => output := output + "\\n";
        case '\r' => output := output + "\\r";
        case '\t' => output := output + "\\t";
        case _ =>
          if character < ' ' {
            output := output + ("\\u" + Hex4(character as nat));
          } else {
            output := output + [character];
          }
      }
    }
    assert input[..|input|] == input;
  }

  // ---- Entries in order ----

  type Entry = (string, string)

  /** std::pair's operator<. */
  predicate EntryLess(a: Entry, b: Entry) {
    Less(a.0, b.0) || (a.0 == b.0 && Less(a.1, b.1))
  }

  function Insert(e: Entry, sorted: seq<Entry>): seq<Entry> {
    if sorted == [] || !EntryLess(sorted[0], e) then [e] + sorted else [sorted[0]] + Insert(e, sorted[1..])
  }

  /** std::sort */
  function Sort(entries: seq<Entry>): seq<Entry> {
    if entries == [] then [] else Insert(entries[0], Sort(entries[1..]))
  }

  // ---- Printing ----

  function PrintEntry(e: Entry): string {
    "\"" + Escape(e.0) + "\":\"" + Escape(e.1) + "\""
  }

  function PrintEntries(entries: seq<Entry>): string {
    if entries == [] then ""
    else if |entries| == 1 then PrintEntry(entries[0])
    else PrintEntries(entries[..|entries| - 1]) + "," + PrintEntry(entries[|entries| - 1])
  }

  function Print(entries: seq<Entry>): string {
    "{" + PrintEntries(Sort(entries)) + "}"
  }

  /** One turn of the printing loop. */
  lemma PrintOneMore(entries: seq<Entry>, k: nat)
    requires k < |entries|
    ensures "{" + PrintEntries(entries[..k + 1]) ==
            (if k == 0 then "{" + PrintEntries(entries[..k]) else "{" + PrintEntries(entries[..k]) + ",")
            + PrintEntry(entries[k])
  {
    assert entries[..k + 1][..k] == entries[..k];
    if k == 0 {
      assert entries[..1] == [entries[0]];
    } else {
      Associate("{", PrintEntries(entries[..k]), ",", PrintEntry(entries[k]));
    }
  }

  /** The entries come in the map's iteration order. */
  method MetadataJson(iteration: seq<Entry>) returns (output: string)
    ensures output == Print(iteration)
  {
    var entries := Sort(iteration);
    output := "{";
    for index := 0 to |entries|
      invariant output == "{" + PrintEntries(entries[..index])
    {
      PrintOneMore(entries, index);
      if index != 0 {
        output := output + ",";
      }
      var key := JsonEscape(entries[index].0);
      var value := JsonEscape(entries[index].1);
      output := output + ("\"" + key + "\":\"" + value + "\"");
    }
    assert entries[..|entries|] == entries;
    output := output + "}";
  }

  // ---- Parsing ----

  predicate IsWs(c: char) {
    c == ' ' || c == '\t' || c == '\n' || c == '\r'
  }

  function SkipWs(s: string): (r: string)
    ensures |r| <= |s|
  {
    if s != "" && IsWs(s[0]) then SkipWs(s[1..]) else s
  }

  /** The input after a given character and the blanks around it. */
  function Expect(c: char, s: string): (r: Option<string>)
    ensures r.Some? ==> |r.value| < |s|
  {
    var t := SkipWs(s);
    if t != "" && t[0] == c then Some(SkipWs(t[1..])) else None
  }

  function HexValue(c: char): Option<nat> {
    if '0' <= c <= '9' then Some((c - '0') as nat)
    else if 'a' <= c <= 'f' then Some((c - 'a') as nat + 10)
    else if 'A' <= c <= 'F' then Some((c - 'A') as nat + 10)
    else None
  }

  function Unhex4(s: string): Option<nat>
    requires |s| == 4
  {
    var a :- HexValue(s[0]);
    var b :- HexValue(s[1]);
    var c :- HexValue(s[2]);
    var d :- HexValue(s[3]);
    Some(((a * 16 + b) * 16 + c) * 16 + d)
  }

  function SimpleEscape(c: char): Option<char> {
    match c
    case '"' => Some('"')
    case '\\' => Some('\\')
    case '/' => Some('/')
    case 'b' => Some('\U{8}')
    case 'f' => Some('\U{c}')
    case 'n' => Some('\n')
    case 'r' => Some('\r')
    case 't' => Some('\t')
    case _ => None
  }

  /** The first character of a string's inside, decoded, and how many characters it takes. */
  function ParseChar(s: string): (r: Option<(char, nat)>)
    requires s != ""
    ensures r.Some? ==> 0 < r.value.1 <= |s|
  {
    if s[0] == '\\' then
      if |s| >= 6 && s[1] == 'u' then
        var n :- Unhex4(s[2..6]);
        if n < 0x80 then Some((n as char, 6)) else None
      else if |s| >= 2 then
        var c :- SimpleEscape(s[1]);
        Some((c, 2))
      else None
    else if s[0] < ' ' then None
    else Some((s[0], 1))
  }

  /** A string whose opening quote has been read, and the input after its closing quote. */
  function ParseString(s: string): (r: Option<(string, string)>)
    ensures r.Some? ==> |r.value.1| < |s|
    decreases |s|
  {
    if s == "" then None
    else if s[0] == '"' then Some(("", s[1..]))
    else
      var (c, n) :- ParseChar(s);
      var (text, rest) :- ParseString(s[n..]);
      Some(([c] + text, rest))
  }

  function ParseMember(s: string): (r: Option<(Entry, string)>)
    ensures r.Some? ==> |r.value.1| < |s|
  {
    if s == "" || s[0] != '"' then None
    else
      var (key, afterKey) :- ParseString(s[1..]);
      var value :- Expect(':', afterKey);
      if value == "" || value[0] != '"' then None
      else
        var (text, rest) :- ParseString(value[1..]);
        Some(((key, text), SkipWs(rest)))
  }

  function ParseMembers(s: string): Option<(seq<Entry>, string)>
    decreases |s|
  {
    var (entry, rest) :- ParseMember(s);
    if rest != "" && rest[0] == ',' then
      var (entries, end) :- ParseMembers(SkipWs(rest[1..]));
      Some(([entry] + entries, end))
    else Some(([entry], rest))
  }

  /** A later member replaces an earlier one of the same name. */
  function ToMap(entries: seq<Entry>): map<string, string> {
    if entries == [] then map[]
    else ToMap(entries[..|entries| - 1])[entries[|entries| - 1].0 := entries[|entries| - 1].1]
  }

  function Parse(s: string): Option<map<string, string>> {
    var body :- Expect('{', s);
    var (entries, rest) :- if body != "" && body[0] == '}' then Some(([], body)) else ParseMembers(body);
    var end :- Expect('}', rest);
    if end == "" then Some(ToMap(entries)) else None
  }

  // ---- Reading back escaped text ----

  lemma HexDigits(d: nat)
    requires d < 16
    ensures HexValue(Text.HexDigit(d)) == Some(d)
  {
  }

  lemma FourDigits(n: nat)
    requires n < 0x1_0000
    ensures n / 0x1000 < 16
    ensures ((n / 0x1000 * 16 + n / 0x100 % 16) * 16 + n / 16 % 16) * 16 + n % 16 == n
  {
    assert n / 0x100 == n / 16 / 16;
    assert n / 0x1000 == n / 0x100 / 16;
  }

  lemma Hex4RoundTrip(n: nat)
    requires n < 0x1_0000
    ensures Unhex4(Hex4(n)) == Some(n)
  {
    FourDigits(n);
    HexDigits(n / 0x1000);
    HexDigits(n / 0x100 % 16);
    HexDigits(n / 16 % 16);
    HexDigits(n % 16);
  }

  lemma ParseEscapedChar(c: char, rest: string)
    ensures EscapeChar(c) != "" && EscapeChar(c)[0] != '"'
    ensures ParseChar(EscapeChar(c) + rest) == Some((c, |EscapeChar(c)|))
  {
    if c < ' ' && |EscapeChar(c)| == 6 {
      Hex4RoundTrip(c as nat);
      assert (EscapeChar(c) + rest)[2..6] == Hex4(c as nat);
    }
  }

  lemma {:induction false} EscapeFront(s: string)
    requires s != ""
    ensures Escape(s) == EscapeChar(s[0]) + Escape(s[1..])
  {
    var k := |s| - 1;
    if k > 0 {
      EscapeFront(s[..k]);
      assert s[..k][1..] == s[1..][..k - 1];
      assert s[1..][k - 1] == s[k];
    }
  }

  lemma Associate(a: string, b: string, c: string, d: string)
    ensures a + b + c + d == a + (b + (c + d))
    ensures a + b + c + d == a + (b + c + d)
    ensures a + b + c + d == a + b + (c + d)
  {
  }

  lemma {:induction false} ParseEscapedStep(c: char, tail: string, text: string, rest: string)
    requires ParseString(tail) == Some((text, rest))
    ensures ParseString(EscapeChar(c) + tail) == Some(([c] + text, rest))
  {
    var input := EscapeChar(c) + tail;
    ParseEscapedChar(c, tail);
    assert input[0] == EscapeChar(c)[0] && input[|EscapeChar(c)|..] == tail;
  }

  lemma {:induction false} ParseEscaped(s: string, rest: string)
    ensures ParseString(Escape(s) + "\"" + rest) == Some((s, rest))
  {
    if s == "" {
      assert ("" + "\"" + rest)[1..] == rest;
    } else {
      EscapeFront(s);
      ParseEscaped(s[1..], rest);
      ParseEscapedStep(s[0], Escape(s[1..]) + "\"" + rest, s[1..], rest);
      Associate(EscapeChar(s[0]), Escape(s[1..]), "\"", rest);
      assert [s[0]] + s[1..] == s;
    }
  }

  /** Input that begins with a character other than a blank. */
  predicate Begins(s: string, c: char) {
    s != "" && s[0] == c && !IsWs(c)
  }

  lemma RegroupMember(key: string, value: string, rest: string)
    ensures "\"" + key + "\":\"" + value + "\"" + rest ==
            "\"" + (key + "\"" + (":" + ("\"" + (value + "\"" + rest))))
  {
    assert "\":\"" == "\"" + (":" + "\"");
    Associate("\"" + key, "\":\"", value + "\"", rest);
    Associate("\"" + key + "\":\"", value, "\"", rest);
  }

  lemma PrintedMember(e: Entry, rest: string)
    ensures PrintEntry(e) + rest ==
            "\"" + (Escape(e.0) + "\"" + (":" + ("\"" + (Escape(e.1) + "\"" + rest))))
  {
    RegroupMember(Escape(e.0), Escape(e.1), rest);
  }

  /** A character that stands where it is expected, with no blanks around it. */
  lemma ExpectHere(c: char, rest: string)
    requires !IsWs(c) && (rest == "" || !IsWs(rest[0]))
    ensures Expect(c, [c] + rest) == Some(rest)
  {
    assert ([c] + rest)[1..] == rest;
  }

  lemma ParsePrintedMember(e: Entry, rest: string)
    requires rest != "" && !IsWs(rest[0])
    ensures ParseMember(PrintEntry(e) + rest) == Some((e, rest))
  {
    var inner := Escape(e.1) + "\"" + rest;
    var value := "\"" + inner;
    var afterKey := ":" + value;
    var input := PrintEntry(e) + rest;
    PrintedMember(e, rest);
    assert input[0] == '"' && input[1..] == Escape(e.0) + "\"" + afterKey;
    ParseEscaped(e.0, afterKey);
    ExpectHere(':', value);
    assert value[1..] == inner;
    ParseEscaped(e.1, rest);
    assert SkipWs(rest) == rest;
  }

  lemma {:induction false} PrintAppended(entries: seq<Entry>, last: Entry)
    requires entries != []
    ensures PrintEntries(entries + [last]) == PrintEntries(entries) + ("," + PrintEntry(last))
  {
    assert (entries + [last])[..|entries|] == entries;
    Associate("", PrintEntries(entries), ",", PrintEntry(last));
  }

  lemma {:induction false} PrintFrontStep(first: Entry, middle: seq<Entry>, last: Entry)
    requires middle != [] && PrintEntries([first] + middle) == PrintEntry(first) + "," + PrintEntries(middle)
    ensures PrintEntries([first] + middle + [last]) == PrintEntry(first) + "," + PrintEntries(middle + [last])
  {
    PrintAppended([first] + middle, last);
    PrintAppended(middle, last);
    Associate(PrintEntry(first), ",", PrintEntries(middle), "," + PrintEntry(last));
  }

  lemma {:induction false} PrintTwo(first: Entry, others: seq<Entry>)
    requires |others| == 1
    ensures PrintEntries([first] + others) == PrintEntry(first) + "," + PrintEntries(others)
  {
    assert others == [others[0]];
    PrintAppended([first], others[0]);
  }

  /** The last entry taken off, behind a first one and alone. */
  lemma LastApart(first: Entry, others: seq<Entry>)
    requires others != []
    ensures var k := |others| - 1;
            && others[..k] + [others[k]] == others
            && [first] + others[..k] + [others[k]] == [first] + others
  {
  }

  lemma {:induction false} PrintEntriesFront(first: Entry, others: seq<Entry>)
    requires others != []
    ensures PrintEntries([first] + others) == PrintEntry(first) + "," + PrintEntries(others)
    decreases |others|
  {
    if |others| == 1 {
      PrintTwo(first, others);
    } else {
      var front, last := others[..|others| - 1], others[|others| - 1];
      LastApart(first, others);
      PrintEntriesFront(first, front);
      PrintFrontStep(first, front, last);
    }
  }

  lemma {:induction false} ParseOneMore(e: Entry, tail: string, entries: seq<Entry>)
    requires Begins(tail, '"') && ParseMembers(tail) == Some((entries, "}"))
    ensures ParseMembers(PrintEntry(e) + ("," + tail)) == Some(([e] + entries, "}"))
  {
    ParsePrintedMember(e, "," + tail);
    assert ("," + tail)[1..] == tail;
    assert SkipWs(tail) == tail;
  }

  lemma {:induction false} PrintEntriesBegins(entries: seq<Entry>)
    requires entries != []
    ensures Begins(PrintEntries(entries), '"')
  {
    if |entries| > 1 {
      PrintEntriesBegins(entries[..|entries| - 1]);
    }
  }

  lemma ParseOnlyMember(e: Entry)
    ensures ParseMembers(PrintEntry(e) + "}") == Some(([e], "}"))
  {
    ParsePrintedMember(e, "}");
  }

  lemma {:induction false} ParsePrintedMembers(entries: seq<Entry>)
    requires entries != []
    ensures ParseMembers(PrintEntries(entries) + "}") == Some((entries, "}"))
  {
    if |entries| == 1 {
      ParseOnlyMember(entries[0]);
      assert [entries[0]] == entries;
    } else {
      var rest := entries[1..];
      ParsePrintedMembers(rest);
      PrintEntriesBegins(rest);
      var tail := PrintEntries(rest) + "}";
      ParseOneMore(entries[0], tail, rest);
      PrintEntriesFront(entries[0], rest);
      Associate(PrintEntry(entries[0]), ",", PrintEntries(rest), "}");
      assert [entries[0]] + rest == entries;
    }
  }

  lemma ParseBody(body: string)
    requires body != "" && !IsWs(body[0])
    ensures Expect('{', "{" + body) == Some(body)
  {
    assert ("{" + body)[1..] == body;
    assert SkipWs(body) == body;
  }

  lemma ParseClosing()
    ensures Expect('}', "}") == Some("")
  {
    assert "}"[1..] == "";
  }

  /** Whatever is printed is read back as the map of the entries. */
  lemma {:induction false} ParseOfPrint(entries: seq<Entry>)
    ensures Parse(Print(entries)) == Some(ToMap(Sort(entries)))
  {
    var sorted := Sort(entries);
    var body := PrintEntries(sorted) + "}";
    Associate("", "{", PrintEntries(sorted), "}");
    assert Print(entries) == "{" + body;
    ParseClosing();
    if sorted == [] {
      assert body == "}";
    } else {
      ParsePrintedMembers(sorted);
      PrintEntriesBegins(sorted);
    }
    ParseBody(body);
  }

  // ---- The order of iteration does not matter ----

  /** A listing of a map, in any order. */
  ghost predicate Lists(entries: seq<Entry>, m: map<string, string>) {
    && (forall i | 0 <= i < |entries| :: entries[i].0 in m && m[entries[i].0] == entries[i].1)
    && (forall k <- m :: (k, m[k]) in entries)
    && (forall i, j | 0 <= i < j < |entries| :: entries[i].0 != entries[j].0)
  }

  predicate StrictlySorted(entries: seq<Entry>) {
    forall i, j | 0 <= i < j < |entries| :: Less(entries[i].0, entries[j].0)
  }

  predicate DistinctKeys(entries: seq<Entry>) {
    forall i, j | 0 <= i < j < |entries| :: entries[i].0 != entries[j].0
  }

  lemma {:induction false} InsertMembers(e: Entry, sorted: seq<Entry>)
    ensures forall x :: x in Insert(e, sorted) <==> x == e || x in sorted
  {
    if sorted != [] && EntryLess(sorted[0], e) {
      InsertMembers(e, sorted[1..]);
      assert sorted == [sorted[0]] + sorted[1..];
    }
  }

  lemma {:induction false} InsertSorted(e: Entry, sorted: seq<Entry>)
    requires StrictlySorted(sorted) && forall x <- sorted :: x.0 != e.0
    ensures StrictlySorted(Insert(e, sorted))
  {
    if sorted != [] {
      LessTotal(sorted[0].0, e.0);
      if EntryLess(sorted[0], e) {
        InsertSorted(e, sorted[1..]);
        InsertMembers(e, sorted[1..]);
        var r := Insert(e, sorted[1..]);
        forall j | 0 <= j < |r| ensures Less(sorted[0].0, r[j].0) {
          assert r[j] in r;
        }
      } else {
        forall j | 0 <= j < |sorted| ensures Less(e.0, sorted[j].0) {
          if j > 0 {
            LessTransitive(e.0, sorted[0].0, sorted[j].0);
          }
        }
      }
    }
  }

  lemma {:induction false} SortSorts(entries: seq<Entry>)
    requires DistinctKeys(entries)
    ensures StrictlySorted(Sort(entries))
    ensures forall x :: x in Sort(entries) <==> x in entries
  {
    if entries != [] {
      SortSorts(entries[1..]);
      InsertMembers(entries[0], Sort(entries[1..]));
      forall x <- Sort(entries[1..]) ensures x.0 != entries[0].0 {
        assert x in entries[1..];
      }
      InsertSorted(entries[0], Sort(entries[1..]));
      assert entries == [entries[0]] + entries[1..];
    }
  }

  /** Two strictly sorted listings of the same entries are the same listing. */
  lemma {:induction false} SortedUnique(a: seq<Entry>, b: seq<Entry>)
    requires StrictlySorted(a) && StrictlySorted(b) && forall x :: x in a <==> x in b
    ensures a == b
  {
    if a == [] {
      if b != [] {
        HasMember(b);
      }
    } else {
      assert a[0] in b && b != [] && b[0] in a;
      if a[0] != b[0] {
        var i :| 0 <= i < |b| && b[i] == a[0];
        var j :| 0 <= j < |a| && a[j] == b[0];
        LessTotal(a[0].0, b[0].0);
      }
      forall x ensures x in a[1..] <==> x in b[1..] {
        TailMembers(a, x);
        TailMembers(b, x);
      }
      SortedUnique(a[1..], b[1..]);
    }
  }

  lemma HasMember(b: seq<Entry>)
    requires b != []
    ensures exists x :: x in b
  {
    assert b[0] in b;
  }

  lemma TailMembers(a: seq<Entry>, x: Entry)
    requires a != [] && StrictlySorted(a)
    ensures x in a[1..] <==> x in a && x != a[0]
  {
    assert a == [a[0]] + a[1..];
    if x in a[1..] {
      var i :| 0 <= i < |a[1..]| && a[1..][i] == x;
      LessTotal(a[0].0, a[i + 1].0);
    }
  }

  /** The text does not depend on the map's iteration order. */
  lemma PrintIsCanonical(a: seq<Entry>, b: seq<Entry>, m: map<string, string>)
    requires Lists(a, m) && Lists(b, m)
    ensures Print(a) == Print(b)
  {
    SortSorts(a);
    SortSorts(b);
    forall x ensures x in Sort(a) <==> x in Sort(b) {
      assert x in a ==> x == (x.0, m[x.0]);
      assert x in b ==> x == (x.0, m[x.0]);
    }
    SortedUnique(Sort(a), Sort(b));
  }

  lemma {:induction false} ToMapOfSorted(entries: seq<Entry>)
    requires StrictlySorted(entries)
    ensures forall x <- entries :: x.0 in ToMap(entries) && ToMap(entries)[x.0] == x.1
    ensures forall k <- ToMap(entries) :: (k, ToMap(entries)[k]) in entries
  {
    if entries != [] {
      var n := |entries| - 1;
      ToMapOfSorted(entries[..n]);
      assert entries == entries[..n] + [entries[n]];
      forall x <- entries ensures x.0 in ToMap(entries) && ToMap(entries)[x.0] == x.1 {
        if x in entries[..n] {
          var i :| 0 <= i < n && entries[i] == x;
          LessTotal(entries[i].0, entries[n].0);
        }
      }
    }
  }

  /** Parsing the printed metadata gives exactly the map, control bytes included. */
  lemma MetadataRoundTrip(entries: seq<Entry>, m: map<string, string>)
    requires Lists(entries, m)
    ensures Parse(Print(entries)) == Some(m)
  {
    ParseOfPrint(entries);
    SortSorts(entries);
    ToMapOfSorted(Sort(entries));
    SameMap(ToMap(Sort(entries)), m, entries);
  }

  lemma SameMap(r: map<string, string>, m: map<string, string>, entries: seq<Entry>)
    requires Lists(entries, m)
    requires forall x <- entries :: x.0 in r && r[x.0] == x.1
    requires forall k <- r :: (k, r[k]) in entries
    ensures r == m
  {
    forall k <- m ensures k in r && r[k] == m[k] {
      assert (k, m[k]) in entries;
    }
    forall k <- r ensures k in m {
      assert (k, r[k]) in entries;
    }
  }

  // ---- What is printed ----

  /** The escapes: seven short ones, four digits for other control bytes, and nothing for the rest. */
  lemma EscapesAre(c: char)
    ensures EscapeChar('"') == "\\\"" && EscapeChar('\\') == "\\\\"
    ensures EscapeChar('\U{8}') == "\\b" && EscapeChar('\U{c}') == "\\f"
    ensures EscapeChar('\n') == "\\n" && EscapeChar('\r') == "\\r" && EscapeChar('\t') == "\\t"
    ensures EscapeChar('\U{0}') == "\\u0000" && EscapeChar('\U{1f}') == "\\u001f"
    ensures c >= ' ' && c != '"' && c != '\\' ==> EscapeChar(c) == [c]
    ensures c < ' ' && c !in {'\U{8}', '\U{c}', '\n', '\r', '\t'} ==> EscapeChar(c) == "\\u" + Hex4(c as nat)
  {
  }

  /** Members follow one another in ascending order of their keys, with a comma between them and no blanks. */
  lemma {:induction false} PrintShape(entries: seq<Entry>, e: Entry)
    requires StrictlySorted(entries + [e])
    ensures Print([]) == "{}"
    ensures var member := "\"" + Escape(e.0) + "\":\"" + Escape(e.1) + "\"";
            Print(entries + [e]) ==
            if entries == [] then "{" + member + "}" else "{" + PrintEntries(entries) + "," + member + "}"
  {
    SortedStays(entries + [e]);
    if entries == [] {
      assert entries + [e] == [e];
    } else {
      PrintAppended(entries, e);
      Associate("{", PrintEntries(entries), ",", PrintEntry(e));
    }
  }

  lemma {:induction false} SortedStays(entries: seq<Entry>)
    requires StrictlySorted(entries)
    ensures Sort(entries) == entries
  {
    if entries != [] {
      SortedStays(entries[1..]);
      if |entries| > 1 {
        LessTotal(entries[0].0, entries[1].0);
      }
      assert [entries[0]] + entries[1..] == entries;
    }
  }
}
