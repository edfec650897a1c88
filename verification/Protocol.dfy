/**
 The command channel's byte protocol: fields end with NUL bytes, four fields make a record.
 The parser takes the bytes in any portions.
 */
module Protocol {
  import opened Wrappers
  import opened Text
  import opened Events

  const PROTOCOL_FIELDS: nat := 4
  const MAXIMUM_FIELD_BYTES: nat := 64 * 1024
  const NUL: char := '\0'
  const HISTORY_MARK: char := '\U{1c}'

  datatype ProtocolError =
    | FieldTooLong
    | InvalidId
    | InvalidStatus
    | ArmHasData
    | MissingHistoryPrefix
    | UnknownMarkerType
    | Incomplete

  /** pending_field_ and fields_. */
  datatype Parser = Parser(pending: string, fields: seq<string>)

  const IDLE := Parser("", [])

  // ---- Records ----

  function ParseId(text: string): Result<U64, ProtocolError> {
    match FromCharsU64(text)
    case Some(value) => if value == 0 then Failure(InvalidId) else Success(value)
    case None => Failure(InvalidId)
  }

  function ParseStatus(text: string): Result<I32, ProtocolError> {
    match FromCharsInt(text)
    case Some(value) => Success(value)
    case None => Failure(InvalidStatus)
  }

  /** The text after the first occurrence of a character. */
  function After(c: char, s: string): Option<string> {
    if s == "" then None
    else if s[0] == c then Some(s[1..])
    else After(c, s[1..])
  }

  function DropNewline(s: string): string {
    if s != "" && s[|s| - 1] == '\n' then s[..|s| - 1] else s
  }

  function Decode(fields: seq<string>): Result<CommandMarker, ProtocolError>
    requires |fields| == PROTOCOL_FIELDS
  {
    var id :- ParseId(fields[1]);
    if fields[0] == "A" then
      if fields[3] != "" then Failure(ArmHasData) else Success(CommandMarker(Arm, id, "", fields[2], 0))
    else if fields[0] == "S" then
      match After(HISTORY_MARK, fields[3])
      case None => Failure(MissingHistoryPrefix)
      case Some(text) => Success(CommandMarker(Start, id, DropNewline(text), fields[2], 0))
    else if fields[0] == "E" then
      var status :- ParseStatus(fields[2]);
      Success(CommandMarker(End, id, "", fields[3], status))
    else Failure(UnknownMarkerType)
  }

  // ---- The parser ----

  function FeedByte(p: Parser, markers: seq<CommandMarker>, byte: char)
    : Result<(Parser, seq<CommandMarker>), ProtocolError>
    requires |p.fields| < PROTOCOL_FIELDS
  {
    if byte != NUL then
      if |p.pending| == MAXIMUM_FIELD_BYTES then Failure(FieldTooLong)
      else Success((p.(pending := p.pending + [byte]), markers))
    else
      var fields := p.fields + [p.pending];
      if |fields| == PROTOCOL_FIELDS then
        var marker :- Decode(fields);
        Success((IDLE, markers + [marker]))
      else Success((Parser("", fields), markers))
  }

  function Feed(p: Parser, bytes: string): (r: Result<(Parser, seq<CommandMarker>), ProtocolError>)
    requires |p.fields| < PROTOCOL_FIELDS
    ensures r.Success? ==> |r.value.0.fields| < PROTOCOL_FIELDS
  {
    if bytes == "" then Success((p, []))
    else
      var (q, markers) :- Feed(p, bytes[..|bytes| - 1]);
      FeedByte(q, markers, bytes[|bytes| - 1])
  }

  class CommandProtocol {
    var pendingField: string
    var fields: seq<string>

    function Abstract(): Parser
      reads this
    {
      Parser(pendingField, fields)
    }

    predicate Valid()
      reads this
    {
      |fields| < PROTOCOL_FIELDS
    }

    constructor ()
      ensures Valid() && Abstract() == IDLE
    {
      pendingField, fields := "", [];
    }

    method Consume(bytes: string) returns (result: Result<seq<CommandMarker>, ProtocolError>)
      requires Valid()
      modifies this
      ensures result.Success? ==> Valid() && Feed(old(Abstract()), bytes) == Success((Abstract(), result.value))
      ensures result.Failure? ==> Feed(old(Abstract()), bytes) == Failure(result.error)
    {
      var markers := [];
      for i := 0 to |bytes|
        invariant Valid()
        invariant Feed(old(Abstract()), bytes[..i]) == Success((Abstract(), markers))
      {
        assert bytes[..i + 1][..i] == bytes[..i];
        FailureStays(old(Abstract()), bytes, i + 1);
        if bytes[i] != NUL {
          if |pendingField| == MAXIMUM_FIELD_BYTES {
            return Failure(FieldTooLong);
          }
          pendingField := pendingField + [bytes[i]];
        } else {
          fields := fields + [pendingField];
          pendingField := "";
          if |fields| == PROTOCOL_FIELDS {
            var marker := DecodeRecord();
            if marker.Failure? {
              return Failure(marker.error);
            }
            markers := markers + [marker.value];
            fields := [];
          }
        }
      }
      assert bytes[..|bytes|] == bytes;
      return Success(markers);
    }

    method DecodeRecord() returns (result: Result<CommandMarker, ProtocolError>)
      requires |fields| == PROTOCOL_FIELDS
      ensures result == Decode(fields)
    {
      var id := ParseId(fields[1]);
      if id.Failure? {
        return Failure(id.error);
      }
      var marker := CommandMarker(Arm, id.value, "", "", 0);
      if fields[0] == "A" {
        marker := marker.(kind := Arm, cwd := fields[2]);
        if fields[3] != "" {
          return Failure(ArmHasData);
        }
        return Success(marker);
      }
      if fields[0] == "S" {
        marker := marker.(kind := Start, cwd := fields[2]);
        var text := After(HISTORY_MARK, fields[3]);
        if text.None? {
          return Failure(MissingHistoryPrefix);
        }
        marker := marker.(text := text.value);
        if marker.text != "" && marker.text[|marker.text| - 1] == '\n' {
          marker := marker.(text := marker.text[..|marker.text| - 1]);
        }
        return Success(marker);
      }
      if fields[0] == "E" {
        marker := marker.(kind := End);
        var status := ParseStatus(fields[2]);
        if status.Failure? {
          return Failure(status.error);
        }
        return Success(marker.(exitCode := status.value, cwd := fields[3]));
      }
      return Failure(UnknownMarkerType);
    }

    method Finish() returns (error: Option<ProtocolError>)
      ensures error == if Abstract() == IDLE then None else Some(Incomplete)
    {
      if pendingField != "" || fields != [] {
        return Some(Incomplete);
      }
      return None;
    }
  }

  lemma {:induction false} FeedNothing(p: Parser)
    requires |p.fields| < PROTOCOL_FIELDS
    ensures Feed(p, "") == Success((p, []))
  {
  }

  /** A failure at some byte is the result of the whole portion. */
  lemma {:induction false} FailureStays(p: Parser, bytes: string, k: nat)
    requires |p.fields| < PROTOCOL_FIELDS && k <= |bytes|
    ensures Feed(p, bytes[..k]).Failure? ==> Feed(p, bytes) == Feed(p, bytes[..k])
    decreases |bytes| - k
  {
    if k == |bytes| {
      assert bytes[..k] == bytes;
    } else {
      FailureStays(p, bytes, k + 1);
      assert bytes[..k + 1][..k] == bytes[..k];
    }
  }

  // ---- Portions do not matter ----

  function Then(
    first: Result<(Parser, seq<CommandMarker>), ProtocolError>, bytes: string)
    : Result<(Parser, seq<CommandMarker>), ProtocolError>
    requires first.Success? ==> |first.value.0.fields| < PROTOCOL_FIELDS
  {
    var (q, before) :- first;
    var (r, after) :- Feed(q, bytes);
    Success((r, before + after))
  }

  lemma FeedByteAdds(q: Parser, before: seq<CommandMarker>, after: seq<CommandMarker>, byte: char)
    requires |q.fields| < PROTOCOL_FIELDS
    ensures FeedByte(q, before + after, byte) ==
            match FeedByte(q, after, byte)
            case Failure(e) => Failure(e)
            case Success((r, markers)) => Success((r, before + markers))
  {
    if byte == NUL && |q.fields| + 1 == PROTOCOL_FIELDS {
      var marker := Decode(q.fields + [q.pending]);
      if marker.Success? {
        assert before + after + [marker.value] == before + (after + [marker.value]);
      }
    }
  }

  lemma {:induction false} FeedTwice(p: Parser, a: string, b: string)
    requires |p.fields| < PROTOCOL_FIELDS
    ensures Feed(p, a + b) == Then(Feed(p, a), b)
    decreases |b|
  {
    if b == "" {
      assert a + b == a;
      if Feed(p, a).Success? {
        assert Feed(p, a).value.1 + [] == Feed(p, a).value.1;
      }
    } else {
      var k := |b| - 1;
      assert (a + b)[..|a + b| - 1] == a + b[..k];
      FeedTwice(p, a, b[..k]);
      if Feed(p, a).Success? {
        var (q, before) := Feed(p, a).value;
        if Feed(q, b[..k]).Success? {
          var (r, after) := Feed(q, b[..k]).value;
          FeedByteAdds(r, before, after, b[k]);
        }
      }
    }
  }

  /** Several calls of consume, one after the other. */
  function FeedAll(p: Parser, portions: seq<string>): (r: Result<(Parser, seq<CommandMarker>), ProtocolError>)
    requires |p.fields| < PROTOCOL_FIELDS
    ensures r.Success? ==> |r.value.0.fields| < PROTOCOL_FIELDS
  {
    if portions == [] then Success((p, []))
    else Then(FeedAll(p, portions[..|portions| - 1]), portions[|portions| - 1])
  }

  function Flatten(portions: seq<string>): string {
    if portions == [] then "" else Flatten(portions[..|portions| - 1]) + portions[|portions| - 1]
  }

  /** However the stream is cut, the markers or the failure are the same. */
  lemma {:induction false} PortionsDoNotMatter(p: Parser, portions: seq<string>)
    requires |p.fields| < PROTOCOL_FIELDS
    ensures FeedAll(p, portions) == Feed(p, Flatten(portions))
  {
    if portions != [] {
      var k := |portions| - 1;
      PortionsDoNotMatter(p, portions[..k]);
      FeedTwice(p, Flatten(portions[..k]), portions[k]);
    }
  }

  // ---- The stream as a whole ----

  predicate NulFree(s: string) {
    NUL !in s
  }

  /** Fields written out, each with its terminator. */
  function Terminate(fields: seq<string>): string {
    if fields == [] then "" else Terminate(fields[..|fields| - 1]) + fields[|fields| - 1] + [NUL]
  }

  /** The stream is these complete fields followed by this unfinished one. */
  predicate Splits(stream: string, fields: seq<string>, rest: string) {
    && stream == Terminate(fields) + rest
    && NulFree(rest)
    && (forall i | 0 <= i < |fields| :: NulFree(fields[i]))
  }

  /** Every fourth field completes a record. */
  function Records(fields: seq<string>): seq<seq<string>> {
    if fields == [] then []
    else
      Records(fields[..|fields| - 1]) +
      (if |fields| % PROTOCOL_FIELDS == 0 then [fields[|fields| - PROTOCOL_FIELDS..]] else [])
  }

  /** All records decoded in order, or the first failure. */
  function DecodeAll(records: seq<seq<string>>): Result<seq<CommandMarker>, ProtocolError>
    requires forall r <- records :: |r| == PROTOCOL_FIELDS
  {
    if records == [] then Success([])
    else
      var before :- DecodeAll(records[..|records| - 1]);
      var marker :- Decode(records[|records| - 1]);
      Success(before + [marker])
  }

  lemma {:induction false} RecordsHaveFour(fields: seq<string>)
    ensures forall r <- Records(fields) :: |r| == PROTOCOL_FIELDS
  {
    if fields != [] {
      RecordsHaveFour(fields[..|fields| - 1]);
    }
  }

  predicate FieldsFit(fields: seq<string>, rest: string) {
    |rest| <= MAXIMUM_FIELD_BYTES && forall i | 0 <= i < |fields| :: |fields[i]| <= MAXIMUM_FIELD_BYTES
  }

  /** The fields of the record that has not been completed. */
  function Unfinished(fields: seq<string>): (r: seq<string>)
    ensures |r| < PROTOCOL_FIELDS
  {
    fields[|fields| - |fields| % PROTOCOL_FIELDS..]
  }

  /** The markers of a stream's complete records. */
  function MarkersOf(fields: seq<string>): Result<seq<CommandMarker>, ProtocolError> {
    RecordsHaveFour(fields);
    DecodeAll(Records(fields))
  }

  /** What the parser has done after a stream, in terms of the stream's fields. */
  ghost predicate Parsed(stream: string, fields: seq<string>, rest: string) {
    if FieldsFit(fields, rest) && MarkersOf(fields).Success? then
      Feed(IDLE, stream) == Success((Parser(rest, Unfinished(fields)), MarkersOf(fields).value))
    else Feed(IDLE, stream).Failure?
  }

  lemma ParsedByte(stream: string, fields: seq<string>, rest: string, byte: char)
    requires Parsed(stream, fields, rest) && byte != NUL
    ensures Parsed(stream + [byte], fields, rest + [byte])
  {
    assert (stream + [byte])[..|stream|] == stream;
  }

  lemma FieldsFitMore(fields: seq<string>, rest: string)
    ensures FieldsFit(fields + [rest], "") <==> FieldsFit(fields, rest)
  {
    var all := fields + [rest];
    assert forall i | 0 <= i < |fields| :: all[i] == fields[i];
    assert all[|fields|] == rest;
  }

  lemma NextOfFour(n: nat)
    ensures (n + 1) % PROTOCOL_FIELDS == if n % PROTOCOL_FIELDS == 3 then 0 else n % PROTOCOL_FIELDS + 1
  {
  }

  lemma UnfinishedMore(fields: seq<string>, field: string)
    ensures var record := Unfinished(fields) + [field];
            Unfinished(fields + [field]) == (if |record| == PROTOCOL_FIELDS then [] else record)
    ensures |fields| % PROTOCOL_FIELDS == 3 ==>
              (fields + [field])[|fields| + 1 - PROTOCOL_FIELDS..] == Unfinished(fields) + [field]
  {
    NextOfFour(|fields|);
  }

  lemma {:induction false} RecordsOfMore(fields: seq<string>, field: string)
    ensures var record := Unfinished(fields) + [field];
            && Unfinished(fields + [field]) == (if |record| == PROTOCOL_FIELDS then [] else record)
            && Records(fields + [field]) ==
               Records(fields) + (if |record| == PROTOCOL_FIELDS then [record] else [])
  {
    assert (fields + [field])[..|fields|] == fields;
    NextOfFour(|fields|);
    UnfinishedMore(fields, field);
  }

  lemma {:induction false} DecodeOneMore(records: seq<seq<string>>, record: seq<string>)
    requires (forall r <- records :: |r| == PROTOCOL_FIELDS) && |record| == PROTOCOL_FIELDS
    ensures DecodeAll(records + [record]) ==
            match DecodeAll(records)
            case Failure(e) => Failure(e)
            case Success(before) =>
              match Decode(record)
              case Failure(e) => Failure(e)
              case Success(marker) => Success(before + [marker])
  {
    assert (records + [record])[..|records|] == records;
  }

  /** One more complete field either completes a record or lengthens the unfinished one. */
  lemma MarkersOfMore(fields: seq<string>, field: string)
    ensures var record := Unfinished(fields) + [field];
            && Unfinished(fields + [field]) == (if |record| == PROTOCOL_FIELDS then [] else record)
            && MarkersOf(fields + [field]) ==
               match MarkersOf(fields)
               case Failure(e) => Failure(e)
               case Success(before) =>
                 if |record| == PROTOCOL_FIELDS then
                   match Decode(record)
                   case Failure(e) => Failure(e)
                   case Success(marker) => Success(before + [marker])
                 else Success(before)
  {
    RecordsOfMore(fields, field);
    RecordsHaveFour(fields);
    if |Unfinished(fields)| + 1 == PROTOCOL_FIELDS {
      DecodeOneMore(Records(fields), Unfinished(fields) + [field]);
    } else {
      assert Records(fields) + [] == Records(fields);
    }
  }

  lemma ParsedTerminator(stream: string, fields: seq<string>, rest: string)
    requires Parsed(stream, fields, rest)
    ensures Parsed(stream + [NUL], fields + [rest], "")
  {
    assert (stream + [NUL])[..|stream|] == stream;
    FieldsFitMore(fields, rest);
    MarkersOfMore(fields, rest);
  }

  lemma {:induction false} ParsedRest(stream: string, fields: seq<string>, rest: string)
    requires Parsed(stream, fields, "") && NulFree(rest)
    ensures Parsed(stream + rest, fields, rest)
  {
    if rest == "" {
      assert stream + rest == stream;
    } else {
      var k := |rest| - 1;
      ParsedRest(stream, fields, rest[..k]);
      ParsedByte(stream + rest[..k], fields, rest[..k], rest[k]);
      assert stream + rest[..k] + [rest[k]] == stream + rest && rest[..k] + [rest[k]] == rest;
    }
  }

  lemma ParsedField(stream: string, before: seq<string>, field: string, rest: string)
    requires Parsed(stream, before, "") && NulFree(field) && NulFree(rest)
    ensures Parsed(stream + field + [NUL] + rest, before + [field], rest)
  {
    ParsedRest(stream, before, field);
    ParsedTerminator(stream + field, before, field);
    ParsedRest(stream + field + [NUL], before + [field], rest);
  }

  /**
   The parser refines the plain reading of the whole stream: cut at the NUL bytes, group the
   complete fields by four, decode the groups. It fails exactly if a field is too long or a
   group does not decode; what it holds back is the unfinished group and field.
   */
  lemma {:induction false} ParsesExactly(stream: string, fields: seq<string>, rest: string)
    requires Splits(stream, fields, rest)
    ensures Parsed(stream, fields, rest)
    decreases |fields|
  {
    if fields == [] {
      assert stream == "" + rest;
      ParsedRest("", [], rest);
    } else {
      var k := |fields| - 1;
      var before, start := fields[..k], Terminate(fields[..k]);
      SplitsBefore(fields);
      ParsesExactly(start, before, "");
      ParsedField(start, before, fields[k], rest);
      assert before + [fields[k]] == fields;
    }
  }

  lemma SplitsBefore(fields: seq<string>)
    requires fields != [] && forall i | 0 <= i < |fields| :: NulFree(fields[i])
    ensures Splits(Terminate(fields[..|fields| - 1]), fields[..|fields| - 1], "")
  {
    var start := Terminate(fields[..|fields| - 1]);
    assert start + "" == start;
  }

  /** Every stream splits in this way. */
  lemma {:induction false} SplitExists(stream: string) returns (fields: seq<string>, rest: string)
    ensures Splits(stream, fields, rest)
  {
    if stream == "" {
      fields, rest := [], "";
    } else {
      var k := |stream| - 1;
      fields, rest := SplitExists(stream[..k]);
      assert stream == stream[..k] + [stream[k]];
      if stream[k] == NUL {
        var all := fields + [rest];
        assert all[..|fields|] == fields;
        fields, rest := all, "";
      } else {
        rest := rest + [stream[k]];
      }
    }
  }

  /**
   An accepted stream leaves at most three complete fields and one unfinished one behind, all
   within the limit; finish succeeds exactly if the stream is a whole number of records.
   */
  lemma {:induction false} LeftoverIsSmall(stream: string, fields: seq<string>, rest: string)
    requires Splits(stream, fields, rest) && Feed(IDLE, stream).Success?
    ensures var p := Feed(IDLE, stream).value.0;
            && |p.fields| <= 3 && |p.pending| <= MAXIMUM_FIELD_BYTES
            && (forall i | 0 <= i < |p.fields| :: |p.fields[i]| <= MAXIMUM_FIELD_BYTES)
            && (p == IDLE <==> rest == "" && |fields| % 4 == 0)
  {
    ParsesExactly(stream, fields, rest);
  }

  // ---- Which records and fields are accepted ----

  /** A decimal number from one to 2^64 - 1, leading zeros allowed. */
  predicate IdText(text: string) {
    text != "" && AllDigits(text) && 0 < Value(text) < 0x1_0000_0000_0000_0000
  }

  /** A decimal number of 32 bits, with a minus sign if it is negative. */
  predicate StatusText(text: string) {
    if text != "" && text[0] == '-' then
      text[1..] != "" && AllDigits(text[1..]) && Value(text[1..]) <= 0x8000_0000
    else text != "" && AllDigits(text) && Value(text) < 0x8000_0000
  }

  function StatusValue(text: string): int
    requires StatusText(text)
  {
    var magnitude: int := Value(if text[0] == '-' then text[1..] else text);
    if text[0] == '-' then -magnitude else magnitude
  }

  /** The text behind the history mark, without the newline that history puts behind it. */
  ghost predicate TextOf(field: string, text: string) {
    exists prefix: string ::
      && HISTORY_MARK !in prefix
      && (field == prefix + [HISTORY_MARK] + text + "\n"
          || (field == prefix + [HISTORY_MARK] + text && (text == "" || text[|text| - 1] != '\n')))
  }

  /** Exactly these records are accepted. */
  lemma DecodesExactly(fields: seq<string>)
    requires |fields| == 4
    ensures Decode(fields).Success? <==>
            && IdText(fields[1])
            && (|| (fields[0] == "A" && fields[3] == "")
                || (fields[0] == "S" && HISTORY_MARK in fields[3])
                || (fields[0] == "E" && StatusText(fields[2])))
  {
    MarkIsFound(fields[3]);
  }

  /** And this is what an accepted record means. */
  lemma DecodedSays(fields: seq<string>)
    requires |fields| == 4 && Decode(fields).Success?
    ensures var m := Decode(fields).value;
            && IdText(fields[1]) && m.id == Value(fields[1])
            && (fields[0] == "A" ==> m == CommandMarker(Arm, m.id, "", fields[2], 0))
            && (fields[0] == "S" ==> m == CommandMarker(Start, m.id, m.text, fields[2], 0) && TextOf(fields[3], m.text))
            && (fields[0] == "E" ==>
                  StatusText(fields[2])
                  && m == CommandMarker(End, m.id, "", fields[3], StatusValue(fields[2])))
  {
    if fields[0] == "S" {
      MarkIsFound(fields[3]);
      TextIsFound(fields[3]);
    }
  }

  lemma {:induction false} MarkIsFound(s: string)
    ensures After(HISTORY_MARK, s).Some? <==> HISTORY_MARK in s
  {
    if s != "" && s[0] != HISTORY_MARK {
      MarkIsFound(s[1..]);
      assert s == [s[0]] + s[1..];
    }
  }

  lemma {:induction false} Prefix(s: string) returns (prefix: string)
    requires After(HISTORY_MARK, s).Some?
    ensures HISTORY_MARK !in prefix && s == prefix + [HISTORY_MARK] + After(HISTORY_MARK, s).value
  {
    if s[0] == HISTORY_MARK {
      prefix := "";
    } else {
      var rest := Prefix(s[1..]);
      prefix := [s[0]] + rest;
      assert s == [s[0]] + s[1..];
    }
  }

  lemma {:induction false} TextIsFound(s: string)
    requires After(HISTORY_MARK, s).Some?
    ensures TextOf(s, DropNewline(After(HISTORY_MARK, s).value))
  {
    var prefix := Prefix(s);
    var line := After(HISTORY_MARK, s).value;
    var text := DropNewline(line);
    if text != line {
      assert line == text + "\n";
      assert s == prefix + [HISTORY_MARK] + text + "\n";
    }
  }

  /** A field of 64 KiB is accepted and a longer one is not. */
  lemma {:induction false} FieldLimit(field: string)
    requires NulFree(field)
    ensures Feed(IDLE, field).Success? <==> |field| <= 65536
  {
    assert Terminate([]) + field == field;
    ParsesExactly(field, [], field);
  }
}
