/**
 format_command and its inverse. Words are read back as sections 2.2.1, 2.2.2 and 2.3 of the
 POSIX Shell Command Language say, for blanks, backslashes and single quotes; any other
 unquoted character with a meaning of its own makes the reader give up.
 */
module ShellWords {
  import opened Wrappers

  // ---- Printing ----

  /** Characters that need no quotes; isalnum is that of the C locale. */
  predicate Plain(c: char) {
    'a' <= c <= 'z' || 'A' <= c <= 'Z' || '0' <= c <= '9' || c == '/' || c == '_' || c == '-' || c == '.' || c == ':'
  }

  predicate AllPlain(s: string) {
    forall i | 0 <= i < |s| :: Plain(s[i])
  }

  const ESCAPED_QUOTE := "'\\''"

  /** The inside of the quotes: a quote is closed, escaped and opened again. */
  function Inner(s: string): string {
    if s == "" then ""
    else Inner(s[..|s| - 1]) + (if s[|s| - 1] == '\'' then ESCAPED_QUOTE else [s[|s| - 1]])
  }

  function Quote(argument: string): string {
    if argument != "" && AllPlain(argument) then argument else "'" + Inner(argument) + "'"
  }

  function Format(command: seq<string>): string {
    if command == [] then ""
    else if |command| == 1 then Quote(command[0])
    else Format(command[..|command| - 1]) + " " + Quote(command[|command| - 1])
  }

  method ShellQuote(argument: string) returns (result: string)
    ensures result == Quote(argument)
  {
    var plain := argument != "";
    var i := 0;
    while plain && i < |argument|
      invariant 0 <= i <= |argument|
      invariant plain ==> argument != "" && AllPlain(argument[..i])
      invariant !plain ==> argument == "" || !AllPlain(argument)
    {
      assert argument[..i + 1] == argument[..i] + [argument[i]];
      plain := Plain(argument[i]);
      i := i + 1;
    }
    assert plain ==> argument[..i] == argument;
    if plain {
      return argument;
    }

    result := "'";
    for k := 0 to |argument|
      invariant result == "'" + Inner(argument[..k])
    {
      assert argument[..k + 1][..k] == argument[..k];
      if argument[k] == '\'' {
        result := result + ESCAPED_QUOTE;
      } else {
        result := result + [argument[k]];
      }
    }
    assert argument[..|argument|] == argument;
    result := result + "'";
  }

  method FormatCommand(command: seq<string>) returns (output: string)
    ensures output == Format(command)
  {
    output := "";
    for index := 0 to |command|
      invariant output == Format(command[..index])
    {
      assert command[..index + 1][..index] == command[..index];
      if index != 0 {
        output := output + " ";
      }
      var quoted := ShellQuote(command[index]);
      output := output + quoted;
    }
    assert command[..|command|] == command;
  }

  // ---- Reading ----

  /** Between words, inside a word, or inside its single quotes; the word read so far. */
  datatype Mode = Between | Word(text: string) | Quoted(text: string)

  datatype Reader = Reader(words: seq<string>, mode: Mode)

  predicate Blank(c: char) {
    c == ' ' || c == '\t'
  }

  function WordText(mode: Mode): string {
    if mode.Between? then "" else mode.text
  }

  /** Character by character; a backslash outside quotes quotes the next one or joins two lines. */
  function Read(r: Reader, input: string): Option<Reader>
    decreases |input|
  {
    if input == "" then Some(r)
    else
      var c, rest := input[0], input[1..];
      if r.mode.Quoted? then
        Read(r.(mode := if c == '\'' then Word(r.mode.text) else Quoted(r.mode.text + [c])), rest)
      else if c == '\'' then Read(r.(mode := Quoted(WordText(r.mode))), rest)
      else if c == '\\' then
        if rest == "" then None
        else if rest[0] == '\n' then Read(r, rest[1..])
        else Read(r.(mode := Word(WordText(r.mode) + [rest[0]])), rest[1..])
      else if Blank(c) then
        Read(if r.mode.Between? then r else Reader(r.words + [r.mode.text], Between), rest)
      else if Plain(c) then Read(r.(mode := Word(WordText(r.mode) + [c])), rest)
      else None
  }

  /** The words of a command line; an open quote or a special character is no result. */
  function Words(input: string): Option<seq<string>> {
    var r :- Read(Reader([], Between), input);
    match r.mode
    case Between => Some(r.words)
    case Word(text) => Some(r.words + [text])
    case Quoted(_) => None
  }

  // ---- Round trip ----

  lemma {:induction false} ReadPlain(r: Reader, s: string, rest: string)
    requires AllPlain(s) && !r.mode.Quoted? && s != ""
    ensures Read(r, s + rest) == Read(r.(mode := Word(WordText(r.mode) + s)), rest)
    decreases |s|
  {
    var next := r.(mode := Word(WordText(r.mode) + [s[0]]));
    assert (s + rest)[1..] == s[1..] + rest && (s + rest)[0] == s[0];
    if |s| == 1 {
      assert s == [s[0]] && s + rest == [s[0]] + rest;
    } else {
      ReadPlain(next, s[1..], rest);
      assert WordText(r.mode) + [s[0]] + s[1..] == WordText(r.mode) + s;
    }
  }

  lemma {:induction false} ReadEscapedQuote(words: seq<string>, text: string, rest: string)
    ensures Read(Reader(words, Quoted(text)), ESCAPED_QUOTE + rest) == Read(Reader(words, Quoted(text + "'")), rest)
  {
    var input := ESCAPED_QUOTE + rest;
    assert input[0] == '\'' && input[1] == '\\' && input[2] == '\'' && input[3] == '\'';
    assert input[1..][1..] == input[2..] && input[2..][1..] == input[3..] && input[3..][1..] == rest;
    assert Read(Reader(words, Quoted(text)), input) == Read(Reader(words, Word(text)), input[1..]);
    assert Read(Reader(words, Word(text)), input[1..]) == Read(Reader(words, Word(text + "'")), input[3..]);
  }

  lemma {:induction false} ReadInner(words: seq<string>, s: string, rest: string)
    ensures Read(Reader(words, Quoted("")), Inner(s) + rest) == Read(Reader(words, Quoted(s)), rest)
    decreases |s|
  {
    if s == "" {
      assert "" + rest == rest;
    } else {
      var k := |s| - 1;
      var last := if s[k] == '\'' then ESCAPED_QUOTE else [s[k]];
      assert Inner(s) + rest == Inner(s[..k]) + (last + rest);
      ReadInner(words, s[..k], last + rest);
      assert s[..k] + [s[k]] == s;
      if s[k] == '\'' {
        ReadEscapedQuote(words, s[..k], rest);
      } else {
        assert ([s[k]] + rest)[1..] == rest;
      }
    }
  }

  /** One printed argument is one word. */
  lemma {:induction false} ReadQuote(words: seq<string>, argument: string, rest: string)
    ensures Read(Reader(words, Between), Quote(argument) + rest) == Read(Reader(words, Word(argument)), rest)
  {
    var r := Reader(words, Between);
    if argument != "" && AllPlain(argument) {
      ReadPlain(r, argument, rest);
      assert "" + argument == argument;
    } else {
      var tail := Inner(argument) + ("'" + rest);
      assert Quote(argument) + rest == "'" + tail;
      assert ("'" + tail)[1..] == tail;
      ReadInner(words, argument, "'" + rest);
      assert ("'" + rest)[1..] == rest;
    }
  }

  lemma {:induction false} ReadFormat(command: seq<string>, rest: string)
    requires command != []
    ensures Read(Reader([], Between), Format(command) + rest) ==
            Read(Reader(command[..|command| - 1], Word(command[|command| - 1])), rest)
  {
    var k := |command| - 1;
    if k == 0 {
      ReadQuote([], command[0], rest);
      assert command[..0] == [];
    } else {
      var before, tail := command[..k], Quote(command[k]) + rest;
      Associate(Format(before), " ", Quote(command[k]), rest);
      ReadFormat(before, " " + tail);
      ReadBlank(before[..k - 1], before[k - 1], tail);
      assert before[..k - 1] + [before[k - 1]] == before;
      ReadQuote(before, command[k], rest);
    }
  }

  lemma Associate(a: string, b: string, c: string, d: string)
    ensures a + b + c + d == a + (b + (c + d))
  {
  }

  lemma {:induction false} ReadBlank(words: seq<string>, text: string, rest: string)
    ensures Read(Reader(words, Word(text)), " " + rest) == Read(Reader(words + [text], Between), rest)
  {
    assert (" " + rest)[1..] == rest;
  }

  /** Reading back a formatted command gives the arguments, empty and quoted ones included. */
  lemma {:induction false} WordsOfFormat(command: seq<string>)
    ensures Words(Format(command)) == Some(command)
  {
    if command != [] {
      ReadFormat(command, "");
      assert Format(command) + "" == Format(command);
      assert command[..|command| - 1] + [command[|command| - 1]] == command;
    }
  }

  lemma {:induction false} FormatInjective(a: seq<string>, b: seq<string>)
    requires Format(a) == Format(b)
    ensures a == b
  {
    WordsOfFormat(a);
    WordsOfFormat(b);
  }

  // ---- What is printed ----

  /** A nonempty argument of letters, digits and / _ - . : is printed unchanged. */
  lemma PlainIsUnchanged(argument: string)
    requires argument != ""
    requires forall c <- argument ::
               'a' <= c <= 'z' || 'A' <= c <= 'Z' || '0' <= c <= '9' || c in {'/', '_', '-', '.', ':'}
    ensures Quote(argument) == argument
  {
    forall i | 0 <= i < |argument| ensures Plain(argument[i]) {
      assert argument[i] in argument;
    }
  }

  lemma NotAllPlain(argument: string)
    requires exists c <- argument :: !Plain(c)
    ensures !AllPlain(argument)
  {
    var c :| c in argument && !Plain(c);
    var i :| 0 <= i < |argument| && argument[i] == c;
  }

  lemma InQuotes(body: string, all: string)
    requires all == "'" + body + "'"
    ensures |all| >= 2 && all[0] == '\'' && all[|all| - 1] == '\''
  {
  }

  /** Any other argument is put into single quotes; without quotes in it, nothing else is changed. */
  lemma {:induction false} OthersAreQuoted(argument: string)
    requires argument == "" || exists c <- argument :: !Plain(c)
    ensures |Quote(argument)| >= 2 && Quote(argument)[0] == '\'' && Quote(argument)[|Quote(argument)| - 1] == '\''
    ensures '\'' !in argument ==> Quote(argument) == "'" + argument + "'"
  {
    if argument != "" {
      NotAllPlain(argument);
    }
    InQuotes(Inner(argument), Quote(argument));
    if '\'' !in argument {
      InnerUnchanged(argument);
    }
  }

  lemma {:induction false} InnerUnchanged(s: string)
    requires '\'' !in s
    ensures Inner(s) == s
  {
    if s != "" {
      InnerUnchanged(s[..|s| - 1]);
      assert s == s[..|s| - 1] + [s[|s| - 1]];
    }
  }

  /** Arguments are separated by one space. */
  lemma {:induction false} FormatOneMore(command: seq<string>, argument: string)
    ensures Format([]) == "" && Format([argument]) == Quote(argument)
    ensures command != [] ==> Format(command + [argument]) == Format(command) + " " + Quote(argument)
  {
    assert (command + [argument])[..|command|] == command;
  }
}
