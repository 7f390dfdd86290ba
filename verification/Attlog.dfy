/**
 The ATTLOG body parser of src/adms/parsers/attlog.ts: lines, fields, records and errors.
 */
module Attlog {
  import opened Options
  import opened Calendar
  import opened JsText
  import opened Datetime

  datatype Record = Record(
    pin: string,
    punchTime: int,
    status: int,
    verifyMode: int,
    workCode: Option<string>,
    reserved1: Option<string>,
    reserved2: Option<string>,
    rawLine: string)

  /** The message of the exception a line raises. */
  datatype LineError =
    | TooFewFields(count: nat)
    | EmptyPin
    | UnparseableDatetime(field: string)
    | UnparseableStatus(field: string)
    | UnparseableVerifyMode(field: string)

  datatype LineResult = Parsed(record: Record) | Malformed(error: LineError)

  datatype ParseError = ParseError(rawLine: string, error: LineError)

  function EmptyToNull(fields: seq<string>, i: nat): Option<string> {
    if i >= |fields| then None
    else
      var trimmed := Trim(fields[i]);
      if trimmed == "" then None else Some(trimmed)
  }

  function WithoutFinalCR(line: string): string {
    if line != [] && line[|line| - 1] == '\r' then line[..|line| - 1] else line
  }

  function ParseFields(fields: seq<string>, rawLine: string): LineResult {
    if |fields| < 4 then Malformed(TooFewFields(|fields|))
    else if Trim(fields[0]) == "" then Malformed(EmptyPin)
    else if ParseDeviceDatetime(fields[1]).None? then Malformed(UnparseableDatetime(fields[1]))
    else if ParseInt(fields[2]).None? then Malformed(UnparseableStatus(fields[2]))
    else if ParseInt(fields[3]).None? then Malformed(UnparseableVerifyMode(fields[3]))
    else
      Parsed(Record(
        Trim(fields[0]), ParseDeviceDatetime(fields[1]).value,
        ParseInt(fields[2]).value, ParseInt(fields[3]).value,
        EmptyToNull(fields, 4), EmptyToNull(fields, 5), EmptyToNull(fields, 6), rawLine))
  }

  function ParseAttlogLine(line: string): (r: LineResult)
    ensures r.Parsed? ==> r.record.rawLine == WithoutFinalCR(line)
  {
    var trimmedLine := WithoutFinalCR(line);
    ParseFields(Split(trimmedLine, '\t'), trimmedLine)
  }

  // ---- Lines: split at \r\n, \r or \n, longest match first ----

  /** Length of the line terminator the text starts with; 0 if none. */
  function Cut(s: string): (k: nat)
    ensures k <= |s|
  {
    if |s| > 1 && s[0] == '\r' && s[1] == '\n' then 2
    else if |s| > 0 && (s[0] == '\r' || s[0] == '\n') then 1
    else 0
  }

  function Lines(s: string): (lines: seq<string>)
    ensures lines != []
    decreases |s|
  {
    if s == [] then [[]]
    else if Cut(s) > 0 then [[]] + Lines(s[Cut(s)..])
    else
      var rest := Lines(s[1..]);
      [[s[0]] + rest[0]] + rest[1..]
  }

  predicate Blank(line: string) {
    Trim(line) == ""
  }

  function NonBlank(lines: seq<string>): seq<string> {
    if lines == [] then []
    else if Blank(lines[0]) then NonBlank(lines[1..])
    else [lines[0]] + NonBlank(lines[1..])
  }

  /** One line and what came of it. */
  datatype Attempt = Attempt(line: string, result: LineResult)

  function AttemptAll(lines: seq<string>, parse: string -> LineResult): (attempts: seq<Attempt>)
    ensures |attempts| == |lines|
    ensures forall i :: 0 <= i < |lines| ==> attempts[i] == Attempt(lines[i], parse(lines[i]))
  {
    seq(|lines|, i requires 0 <= i < |lines| => Attempt(lines[i], parse(lines[i])))
  }

  function Attempts(body: string): seq<Attempt> {
    AttemptAll(NonBlank(Lines(body)), ParseAttlogLine)
  }

  function RecordsOf(attempts: seq<Attempt>): seq<Record> {
    if attempts == [] then []
    else if attempts[0].result.Parsed? then [attempts[0].result.record] + RecordsOf(attempts[1..])
    else RecordsOf(attempts[1..])
  }

  function ErrorsOf(attempts: seq<Attempt>): seq<ParseError> {
    if attempts == [] then []
    else if attempts[0].result.Malformed? then
      [ParseError(attempts[0].line, attempts[0].result.error)] + ErrorsOf(attempts[1..])
    else ErrorsOf(attempts[1..])
  }

  function Records(body: string): seq<Record> {
    RecordsOf(Attempts(body))
  }

  function Errors(body: string): seq<ParseError> {
    ErrorsOf(Attempts(body))
  }

  lemma Reassociate<T>(all: seq<T>, done: seq<T>, one: seq<T>, rest: seq<T>)
    requires all == done + (one + rest)
    ensures all == (done + one) + rest
  {
  }

  lemma ResultsStep(rest: seq<Attempt>, records: seq<Record>, errors: seq<ParseError>,
                    allRecords: seq<Record>, allErrors: seq<ParseError>)
    requires rest != [] && allRecords == records + RecordsOf(rest) && allErrors == errors + ErrorsOf(rest)
    ensures rest[0].result.Parsed? ==>
              allRecords == records + [rest[0].result.record] + RecordsOf(rest[1..])
              && allErrors == errors + ErrorsOf(rest[1..])
    ensures rest[0].result.Malformed? ==>
              allRecords == records + RecordsOf(rest[1..])
              && allErrors == errors + [ParseError(rest[0].line, rest[0].result.error)] + ErrorsOf(rest[1..])
  {
    if rest[0].result.Parsed? {
      Reassociate(allRecords, records, [rest[0].result.record], RecordsOf(rest[1..]));
    } else {
      Reassociate(allErrors, errors, [ParseError(rest[0].line, rest[0].result.error)], ErrorsOf(rest[1..]));
    }
  }

  /** The loop over the lines: a malformed line becomes an error and never stops the batch. */
  method Collect(lines: seq<string>, parse: string -> LineResult)
    returns (records: seq<Record>, errors: seq<ParseError>)
    ensures records == RecordsOf(AttemptAll(lines, parse))
    ensures errors == ErrorsOf(AttemptAll(lines, parse))
  {
    records, errors := [], [];
    ghost var attempts := AttemptAll(lines, parse);
    ghost var rest := attempts;
    ghost var allRecords, allErrors := RecordsOf(rest), ErrorsOf(rest);
    for i := 0 to |lines|
      invariant rest == attempts[i..]
      invariant allRecords == records + RecordsOf(rest)
      invariant allErrors == errors + ErrorsOf(rest)
    {
      ResultsStep(rest, records, errors, allRecords, allErrors);
      assert rest[0] == Attempt(lines[i], parse(lines[i]));
      rest := rest[1..];
      match parse(lines[i]) {
        case Parsed(record) => records := records + [record];
        case Malformed(error) => errors := errors + [ParseError(lines[i], error)];
      }
    }
  }

  method ParseAttlogBody(body: string) returns (records: seq<Record>, errors: seq<ParseError>)
    ensures records == Records(body)
    ensures errors == Errors(body)
  {
    records, errors := Collect(NonBlank(Lines(body)), ParseAttlogLine);
  }

  // ---- Nothing is lost: every nonblank line is a record or an error, in order ----

  /** `records` and `errors` together are the lines, each in its place. */
  predicate Interleaved(lines: seq<string>, records: seq<Record>, errors: seq<ParseError>) {
    if lines == [] then records == [] && errors == []
    else
      || (records != [] && records[0].rawLine == WithoutFinalCR(lines[0]) && Interleaved(lines[1..], records[1..], errors))
      || (errors != [] && errors[0].rawLine == lines[0] && Interleaved(lines[1..], records, errors[1..]))
  }

  lemma {:induction false} AttemptsInterleave(lines: seq<string>, attempts: seq<Attempt>)
    requires |attempts| == |lines|
    requires forall i :: 0 <= i < |lines| ==>
               attempts[i].line == lines[i] &&
               (attempts[i].result.Parsed? ==> attempts[i].result.record.rawLine == WithoutFinalCR(lines[i]))
    ensures Interleaved(lines, RecordsOf(attempts), ErrorsOf(attempts))
    ensures |RecordsOf(attempts)| + |ErrorsOf(attempts)| == |lines|
  {
    if lines != [] {
      AttemptsInterleave(lines[1..], attempts[1..]);
      if attempts[0].result.Parsed? {
        assert RecordsOf(attempts)[1..] == RecordsOf(attempts[1..]);
        assert ErrorsOf(attempts) == ErrorsOf(attempts[1..]);
      } else {
        assert RecordsOf(attempts) == RecordsOf(attempts[1..]);
        assert ErrorsOf(attempts)[1..] == ErrorsOf(attempts[1..]);
      }
    }
  }

  lemma EveryLineIsAccountedFor(body: string)
    ensures Interleaved(NonBlank(Lines(body)), Records(body), Errors(body))
    ensures |Records(body)| + |Errors(body)| == |NonBlank(Lines(body))|
  {
    AttemptsInterleave(NonBlank(Lines(body)), Attempts(body));
  }

  // ---- Splitting is a homomorphism ----

  predicate IsTerminator(t: string) {
    t == "\r\n" || t == "\r" || t == "\n"
  }

  /** The terminator is not torn apart or lengthened by its neighbours. */
  predicate StandsAlone(a: string, t: string, b: string) {
    && !(t == "\n" && a != [] && a[|a| - 1] == '\r')
    && !(t == "\r" && b != [] && b[0] == '\n')
  }

  lemma CutAcrossTerminator(a: string, t: string, b: string, s: string)
    requires IsTerminator(t) && StandsAlone(a, t, b) && s == a + t + b
    ensures Cut(s) == if a == [] then |t| else Cut(a)
  {
    assert a == [] ==> s[0] == t[0] && (|t| == 2 ==> s[1] == t[1]);
  }

  function Prepend(c: char, lines: seq<string>): seq<string>
    requires lines != []
  {
    [[c] + lines[0]] + lines[1..]
  }

  lemma PrependConcat(c: char, front: seq<string>, back: seq<string>)
    requires front != []
    ensures Prepend(c, front + back) == Prepend(c, front) + back
  {
    assert (front + back)[1..] == front[1..] + back;
  }

  lemma LinesOfChar(s: string, rest: seq<string>)
    requires s != [] && Cut(s) == 0 && rest == Lines(s[1..])
    ensures Lines(s) == Prepend(s[0], rest)
  {
  }

  lemma LinesOfCut(s: string, rest: seq<string>)
    requires Cut(s) > 0 && rest == Lines(s[Cut(s)..])
    ensures Lines(s) == [[]] + rest
  {
  }

  lemma GlueFirst(whole: seq<string>, front: seq<string>, first: seq<string>, rest: seq<string>, tail: seq<string>)
    requires whole == first + (rest + tail) && front == first + rest
    ensures whole == front + tail
  {
  }

  lemma CutBoth(s: string, a: string, tail: seq<string>)
    requires Cut(a) > 0 && Cut(s) == Cut(a) && Lines(s[Cut(a)..]) == Lines(a[Cut(a)..]) + tail
    ensures Lines(s) == Lines(a) + tail
  {
    var rest := Lines(a[Cut(a)..]);
    LinesOfCut(s, rest + tail);
    LinesOfCut(a, rest);
    GlueFirst(Lines(s), Lines(a), [[]], rest, tail);
  }

  lemma CharBoth(s: string, a: string, tail: seq<string>)
    requires a != [] && s != [] && s[0] == a[0] && Cut(a) == 0 && Cut(s) == 0
    requires Lines(s[1..]) == Lines(a[1..]) + tail
    ensures Lines(s) == Lines(a) + tail
  {
    var rest := Lines(a[1..]);
    LinesOfChar(s, rest + tail);
    LinesOfChar(a, rest);
    PrependConcat(a[0], rest, tail);
  }

  lemma TailAcross(a: string, t: string, b: string, s: string, k: nat)
    requires k <= |a| && s == a + t + b
    ensures s[k..] == a[k..] + t + b
  {
  }

  lemma {:induction false} LinesAcrossTerminator(a: string, t: string, b: string, s: string)
    requires IsTerminator(t) && StandsAlone(a, t, b) && s == a + t + b
    ensures Lines(s) == Lines(a) + Lines(b)
    decreases |a|
  {
    var k := Cut(a);
    CutAcrossTerminator(a, t, b, s);
    if a == [] {
      assert s[|t|..] == b;
      LinesOfCut(s, Lines(b));
    } else if k > 0 {
      TailAcross(a, t, b, s, k);
      LinesAcrossTerminator(a[k..], t, b, s[k..]);
      CutBoth(s, a, Lines(b));
    } else {
      TailAcross(a, t, b, s, 1);
      LinesAcrossTerminator(a[1..], t, b, s[1..]);
      CharBoth(s, a, Lines(b));
    }
  }

  lemma {:induction false} NonBlankConcat(a: seq<string>, b: seq<string>)
    ensures NonBlank(a + b) == NonBlank(a) + NonBlank(b)
  {
    if a == [] {
      assert a + b == b;
    } else {
      assert (a + b)[1..] == a[1..] + b;
      NonBlankConcat(a[1..], b);
    }
  }

  function BodyLines(body: string): seq<string> {
    NonBlank(Lines(body))
  }

  lemma BodyLinesAcross(a: string, t: string, b: string)
    requires IsTerminator(t) && StandsAlone(a, t, b)
    ensures BodyLines(a + t + b) == BodyLines(a) + BodyLines(b)
  {
    LinesAcrossTerminator(a, t, b, a + t + b);
    NonBlankConcat(Lines(a), Lines(b));
  }

  /** Whatever the terminator and its neighbours, the nonblank lines are those of the two parts. */
  lemma BodyLinesAcrossTerminator(a: string, t: string, b: string)
    requires IsTerminator(t)
    ensures BodyLines(a + t + b) == BodyLines(a) + BodyLines(b)
  {
    assert BodyLines("") == [];
    if StandsAlone(a, t, b) {
      BodyLinesAcross(a, t, b);
    } else if t == "\n" {
      var front := a[..|a| - 1];
      assert a == front + "\r" + "" && a + t + b == front + "\r\n" + b;
      BodyLinesAcross(front, "\r\n", b);
      BodyLinesAcross(front, "\r", "");
    } else {
      var back := b[1..];
      assert b == "" + "\n" + back && a + t + b == a + "\r\n" + back;
      BodyLinesAcross(a, "\r\n", back);
      BodyLinesAcross("", "\n", back);
    }
  }

  lemma {:induction false} RecordsConcat(a: seq<Attempt>, b: seq<Attempt>)
    ensures RecordsOf(a + b) == RecordsOf(a) + RecordsOf(b)
  {
    if a == [] {
      assert a + b == b;
    } else {
      assert (a + b)[1..] == a[1..] + b;
      RecordsConcat(a[1..], b);
    }
  }

  lemma {:induction false} ErrorsConcat(a: seq<Attempt>, b: seq<Attempt>)
    ensures ErrorsOf(a + b) == ErrorsOf(a) + ErrorsOf(b)
  {
    if a == [] {
      assert a + b == b;
    } else {
      assert (a + b)[1..] == a[1..] + b;
      ErrorsConcat(a[1..], b);
    }
  }

  lemma AttemptAllConcat(a: seq<string>, b: seq<string>, parse: string -> LineResult)
    ensures AttemptAll(a + b, parse) == AttemptAll(a, parse) + AttemptAll(b, parse)
  {
  }

  /** Parsing two bodies joined by any line terminator gives the two parses, one after the other. */
  lemma ParsingIsAHomomorphism(a: string, t: string, b: string)
    requires IsTerminator(t)
    ensures Records(a + t + b) == Records(a) + Records(b)
    ensures Errors(a + t + b) == Errors(a) + Errors(b)
  {
    BodyLinesAcrossTerminator(a, t, b);
    AttemptAllConcat(BodyLines(a), BodyLines(b), ParseAttlogLine);
    RecordsConcat(Attempts(a), Attempts(b));
    ErrorsConcat(Attempts(a), Attempts(b));
  }

  // ---- Which lines are records ----

  predicate OneLine(x: string) {
    '\r' !in x && '\n' !in x
  }

  lemma {:induction false} LinesOfOneLine(line: string)
    requires OneLine(line)
    ensures Lines(line) == [line]
  {
    if line != [] {
      LinesOfOneLine(line[1..]);
      LinesOfChar(line, [line[1..]]);
      assert [line[0]] + line[1..] == line;
    }
  }

  /** After white space an optional sign and a digit. */
  predicate NumeralShaped(field: string) {
    StartsNumeral(TrimStart(field))
  }

  lemma NumeralsParse(field: string)
    ensures ParseInt(field).Some? <==> NumeralShaped(field)
  {
    var left := StartTrimmedAway(field);
    ParseIntAccepts(left, TrimStart(field));
  }

  lemma TimestampsParse(field: string)
    ensures ParseDeviceDatetime(field).Some? <==> TimestampShaped(Trim(field))
  {
    var left, right := TrimmedAway(field);
    TrimmedIsTrimmed(field);
    ParsesExactlyTimestamps(left, Trim(field), right);
  }

  lemma TrimmedIsTrimmed(s: string)
    ensures Trimmed(Trim(s))
  {
    var t := TrimStart(s);
    assert TrimEnd(t) <= t;
  }

  /**
   A line, cut at its tabs, is a record if and only if it has at least four fields, the first not
   blank, the second a timestamp, the third and fourth beginning as numerals; otherwise the first of
   these tests to fail is its error.
   */
  lemma LineIsARecordExactly(line: string, fields: seq<string>)
    requires fields == Split(WithoutFinalCR(line), '\t')
    ensures var result := ParseAttlogLine(line);
            if |fields| < 4 then result == Malformed(TooFewFields(|fields|))
            else if AllSpaces(fields[0]) then result == Malformed(EmptyPin)
            else if !TimestampShaped(Trim(fields[1])) then result == Malformed(UnparseableDatetime(fields[1]))
            else if !NumeralShaped(fields[2]) then result == Malformed(UnparseableStatus(fields[2]))
            else if !NumeralShaped(fields[3]) then result == Malformed(UnparseableVerifyMode(fields[3]))
            else result.Parsed?
  {
    if |fields| >= 4 {
      BlankIffAllSpaces(fields[0]);
      TimestampsParse(fields[1]);
      NumeralsParse(fields[2]);
      NumeralsParse(fields[3]);
    }
  }

  /** A carriage return at the very end of a line does not count. */
  lemma FinalCRIsDropped(line: string)
    requires line == [] || line[|line| - 1] != '\r'
    ensures ParseAttlogLine(line + "\r") == ParseAttlogLine(line)
  {
    assert (line + "\r")[..|line|] == line;
  }

  /** A line of white space is passed over; any other is a record or an error. */
  lemma BlankLinesAreSkipped(line: string)
    requires OneLine(line)
    ensures Attempts(line) == if AllSpaces(line) then [] else [Attempt(line, ParseAttlogLine(line))]
  {
    LinesOfOneLine(line);
    BlankIffAllSpaces(line);
    assert [line][1..] == [];
    assert NonBlank([line]) == if AllSpaces(line) then [] else [line];
    assert AttemptAll([], ParseAttlogLine) == [];
    assert AttemptAll([line], ParseAttlogLine) == [Attempt(line, ParseAttlogLine(line))];
  }

  // ---- Parsing inverts printing ----

  predicate OneField(x: string) {
    '\t' !in x && OneLine(x)
  }

  /** Text a field can carry: nothing the splitting or trimming would touch. */
  predicate Plain(x: string) {
    Trimmed(x) && OneField(x)
  }

  /** The same, told by what trimming does. */
  predicate Bare(x: string) {
    Trim(x) == x && OneField(x)
  }

  predicate PlainOrNull(x: Option<string>) {
    x.Some? ==> x.value != "" && Plain(x.value)
  }

  predicate Printable(r: Record) {
    && r.pin != "" && Plain(r.pin)
    && r.punchTime % 1000 == 0 && 1000 <= UtcFields(r.punchTime).year <= 9999
    && PlainOrNull(r.workCode) && PlainOrNull(r.reserved1) && PlainOrNull(r.reserved2)
  }

  predicate WellFormed(r: Record) {
    Printable(r) && r.rawLine == PrintRecord(r)
  }

  function OrEmpty(x: Option<string>): string {
    if x.Some? then x.value else ""
  }

  function PrintedFields(r: Record): seq<string>
    requires 1000 <= UtcFields(r.punchTime).year <= 9999
  {
    [r.pin, PrintTimestamp(UtcFields(r.punchTime)), JsString(r.status), JsString(r.verifyMode),
     OrEmpty(r.workCode), OrEmpty(r.reserved1), OrEmpty(r.reserved2)]
  }

  function PrintRecord(r: Record): string
    requires 1000 <= UtcFields(r.punchTime).year <= 9999
  {
    Join(PrintedFields(r), '\t')
  }

  lemma DigitsAreOneField(x: string)
    requires AllDigits(x)
    ensures OneField(x)
  {
  }

  lemma OneFieldConcat(a: string, b: string)
    requires OneField(a) && OneField(b)
    ensures OneField(a + b)
  {
  }

  lemma Pad2IsOneField(n: nat)
    requires n < 100
    ensures OneField(Pad2(n))
  {
    Pad2IsTwoDigits(n);
  }

  lemma TimestampIsOneField(f: Fields)
    requires ValidFields(f) && 1000 <= f.year <= 9999
    ensures OneField(PrintTimestamp(f))
  {
    MonthLengthsFit(f);
    var year, month, day := Decimal(f.year), Pad2(f.month + 1), Pad2(f.day);
    var hour, minute, second := Pad2(f.hour), Pad2(f.minute), Pad2(f.second);
    DigitsAreOneField(year);
    Pad2IsOneField(f.month + 1);
    Pad2IsOneField(f.day);
    Pad2IsOneField(f.hour);
    Pad2IsOneField(f.minute);
    Pad2IsOneField(f.second);
    SeparatedIsOneField(year, month, '-');
    SeparatedIsOneField(year + "-" + month, day, '-');
    SeparatedIsOneField(year + "-" + month + "-" + day, hour, ' ');
    SeparatedIsOneField(year + "-" + month + "-" + day + " " + hour, minute, ':');
    SeparatedIsOneField(year + "-" + month + "-" + day + " " + hour + ":" + minute, second, ':');
  }

  lemma SeparatedIsOneField(a: string, b: string, separator: char)
    requires OneField(a) && OneField(b) && (separator == '-' || separator == ' ' || separator == ':')
    ensures OneField(a + [separator] + b)
  {
    OneFieldConcat(a, [separator]);
    OneFieldConcat(a + [separator], b);
  }

  lemma NumeralIsOneField(n: int)
    ensures OneField(JsString(n))
  {
  }

  lemma {:induction false} JoinIsOneLine(parts: seq<string>)
    requires forall i :: 0 <= i < |parts| ==> OneField(parts[i])
    ensures OneLine(Join(parts, '\t'))
  {
    if |parts| == 1 {
      assert OneField(parts[0]);
    } else if parts != [] {
      assert OneField(parts[0]);
      JoinIsOneLine(parts[1..]);
    }
  }

  lemma WithoutCRUnchanged(line: string)
    requires '\r' !in line
    ensures WithoutFinalCR(line) == line
  {
  }

  lemma JoinedLineParses(line: string, fields: seq<string>)
    requires fields != [] && line == Join(fields, '\t')
    requires forall i :: 0 <= i < |fields| ==> OneField(fields[i])
    ensures ParseAttlogLine(line) == ParseFields(fields, line) && OneLine(line)
  {
    JoinIsOneLine(fields);
    SplitOfJoin(fields, '\t');
    WithoutCRUnchanged(line);
  }

  lemma JoinStartsWith(fields: seq<string>, line: string)
    requires |fields| > 1 && fields[0] != "" && line == Join(fields, '\t')
    ensures line != [] && line[0] == fields[0][0]
  {
  }

  /** What column `i` after the verify mode says; a missing or empty one says nothing. */
  function Column(more: seq<string>, i: nat): Option<string> {
    if i < |more| && more[i] != "" then Some(more[i]) else None
  }

  lemma ColumnIsField(fields: seq<string>, head: seq<string>, more: seq<string>, i: nat)
    requires fields == head + more && |head| == 4 && (i < |more| ==> Trim(more[i]) == more[i])
    ensures EmptyToNull(fields, 4 + i) == Column(more, i)
  {
    if i < |more| {
      assert fields[4 + i] == more[i];
    }
  }

  lemma FirstFour(head: seq<string>, more: seq<string>)
    requires |head| == 4 && OneField(head[0]) && OneField(head[1]) && OneField(head[2]) && OneField(head[3])
    requires forall i :: 0 <= i < |more| ==> OneField(more[i])
    ensures forall i :: 0 <= i < |head + more| ==> OneField((head + more)[i])
  {
    forall i | 0 <= i < |head + more| ensures OneField((head + more)[i]) {
      if i >= 4 {
        assert (head + more)[i] == more[i - 4];
      } else {
        assert (head + more)[i] == head[i];
      }
    }
  }

  lemma FourFieldsParse(fields: seq<string>, line: string, t: int, status: int, verifyMode: int)
    requires |fields| >= 4 && fields[0] != "" && Trim(fields[0]) == fields[0]
    requires ParseDeviceDatetime(fields[1]) == Some(t)
    requires ParseInt(fields[2]) == Some(status) && ParseInt(fields[3]) == Some(verifyMode)
    ensures ParseFields(fields, line) ==
            Parsed(Record(fields[0], t, status, verifyMode,
                          EmptyToNull(fields, 4), EmptyToNull(fields, 5), EmptyToNull(fields, 6), line))
  {
  }

  lemma ColumnsParse(head: seq<string>, more: seq<string>, line: string, t: int, status: int, verifyMode: int)
    requires |head| == 4 && head[0] != "" && Trim(head[0]) == head[0]
    requires ParseDeviceDatetime(head[1]) == Some(t)
    requires ParseInt(head[2]) == Some(status) && ParseInt(head[3]) == Some(verifyMode)
    requires forall i :: 0 <= i < |more| ==> Trim(more[i]) == more[i]
    ensures ParseFields(head + more, line) ==
            Parsed(Record(head[0], t, status, verifyMode, Column(more, 0), Column(more, 1), Column(more, 2), line))
  {
    ColumnIsField(head + more, head, more, 0);
    ColumnIsField(head + more, head, more, 1);
    ColumnIsField(head + more, head, more, 2);
    FourFieldsParse(head + more, line, t, status, verifyMode);
  }

  /**
   Four fields are enough: any texts that parse as timestamp, status and verify mode, joined by tabs,
   are a record; of the columns after them three are kept, and those missing are null.
   */
  lemma ShortLinesParse(head: seq<string>, more: seq<string>, line: string, t: int, status: int, verifyMode: int)
    requires |head| == 4 && head[0] != "" && Bare(head[0])
    requires OneField(head[1]) && ParseDeviceDatetime(head[1]) == Some(t)
    requires OneField(head[2]) && ParseInt(head[2]) == Some(status)
    requires OneField(head[3]) && ParseInt(head[3]) == Some(verifyMode)
    requires forall i :: 0 <= i < |more| ==> Bare(more[i])
    requires line == Join(head + more, '\t')
    ensures ParseAttlogLine(line) ==
            Parsed(Record(head[0], t, status, verifyMode, Column(more, 0), Column(more, 1), Column(more, 2), line))
    ensures !Blank(line) && OneLine(line)
  {
    FirstFour(head, more);
    JoinedLineParses(line, head + more);
    ColumnsParse(head, more, line, t, status, verifyMode);
    JoinStartsWith(head + more, line);
    BareStarts(head[0]);
    TrimKeepsInk(line);
  }

  lemma BareStarts(x: string)
    requires x != "" && Trim(x) == x
    ensures !IsSpace(x[0])
  {
    assert x <= TrimStart(x);
  }

  lemma PrintedColumn(x: Option<string>)
    requires PlainOrNull(x)
    ensures Bare(OrEmpty(x))
  {
    TrimKeepsTrimmed(OrEmpty(x));
  }

  lemma ThreeColumns(more: seq<string>, a: Option<string>, b: Option<string>, c: Option<string>)
    requires more == [OrEmpty(a), OrEmpty(b), OrEmpty(c)] && PlainOrNull(a) && PlainOrNull(b) && PlainOrNull(c)
    ensures Column(more, 0) == a && Column(more, 1) == b && Column(more, 2) == c
  {
  }

  lemma AllThree(more: seq<string>)
    requires |more| == 3 && Bare(more[0]) && Bare(more[1]) && Bare(more[2])
    ensures forall i :: 0 <= i < 3 ==> Bare(more[i])
  {
  }

  lemma StampParses(t: int, f: Fields, stamp: string)
    requires t % 1000 == 0 && f == UtcFields(t) && 1000 <= f.year <= 9999 && stamp == PrintTimestamp(f)
    ensures OneField(stamp) && ParseDeviceDatetime(stamp) == Some(t)
  {
    TimestampIsOneField(f);
    PrintedTimestampParses(t, f, stamp);
  }

  lemma NumberParses(n: int, text: string)
    requires text == JsString(n)
    ensures OneField(text) && ParseInt(text) == Some(n)
  {
    NumeralIsOneField(n);
    ParseIntOfPrinted(n);
  }

  lemma SevenColumns(a: string, b: string, c: string, d: string, e: string, f: string, g: string)
    ensures [a, b, c, d] + [e, f, g] == [a, b, c, d, e, f, g]
  {
  }

  /** A printed record is one nonblank line, and parses back. */
  lemma PrintedRecordParses(r: Record, stamp: string, status: string, verifyMode: string)
    requires WellFormed(r) && stamp == PrintTimestamp(UtcFields(r.punchTime))
    requires status == JsString(r.status) && verifyMode == JsString(r.verifyMode)
    ensures ParseAttlogLine(r.rawLine) == Parsed(r)
    ensures !Blank(r.rawLine) && OneLine(r.rawLine)
  {
    var workCode, reserved1, reserved2 := OrEmpty(r.workCode), OrEmpty(r.reserved1), OrEmpty(r.reserved2);
    var more := [workCode, reserved1, reserved2];
    StampParses(r.punchTime, UtcFields(r.punchTime), stamp);
    NumberParses(r.status, status);
    NumberParses(r.verifyMode, verifyMode);
    TrimKeepsTrimmed(r.pin);
    PrintedColumn(r.workCode);
    PrintedColumn(r.reserved1);
    PrintedColumn(r.reserved2);
    AllThree(more);
    ThreeColumns(more, r.workCode, r.reserved1, r.reserved2);
    SevenColumns(r.pin, stamp, status, verifyMode, workCode, reserved1, reserved2);
    ShortLinesParse([r.pin, stamp, status, verifyMode], more, r.rawLine, r.punchTime, r.status, r.verifyMode);
  }

  function RawLines(records: seq<Record>): (lines: seq<string>)
    ensures |lines| == |records|
    ensures forall i :: 0 <= i < |records| ==> lines[i] == records[i].rawLine
  {
    seq(|records|, i requires 0 <= i < |records| => records[i].rawLine)
  }

  lemma {:induction false} BodyLinesOfJoined(lines: seq<string>)
    requires forall i :: 0 <= i < |lines| ==>
               !Blank(lines[i]) && OneLine(lines[i])
    ensures BodyLines(Join(lines, '\n')) == lines
  {
    if lines == [] {
      assert Lines("") == [""];
    } else {
      var line := lines[0];
      LinesOfOneLine(line);
      assert NonBlank([line]) == [line];
      if |lines| > 1 {
        var rest := Join(lines[1..], '\n');
        BodyLinesOfJoined(lines[1..]);
        BodyLinesAcrossTerminator(line, "\n", rest);
        assert line + "\n" + rest == Join(lines, '\n');
      }
    }
  }

  lemma {:induction false} ResultsOfParsed(attempts: seq<Attempt>, records: seq<Record>)
    requires |attempts| == |records|
    requires forall i :: 0 <= i < |records| ==> attempts[i].result == Parsed(records[i])
    ensures RecordsOf(attempts) == records && ErrorsOf(attempts) == []
  {
    if attempts != [] {
      ResultsOfParsed(attempts[1..], records[1..]);
    }
  }

  /** Printing well-formed records one per line and parsing gives them back, with no errors. */
  lemma PrintedBodyParsesBack(records: seq<Record>)
    requires forall i :: 0 <= i < |records| ==> WellFormed(records[i])
    ensures Records(Join(RawLines(records), '\n')) == records
    ensures Errors(Join(RawLines(records), '\n')) == []
  {
    var lines := RawLines(records);
    forall i | 0 <= i < |lines|
      ensures ParseAttlogLine(lines[i]) == Parsed(records[i])
      ensures !Blank(lines[i]) && OneLine(lines[i])
    {
      var r := records[i];
      PrintedRecordParses(r, PrintTimestamp(UtcFields(r.punchTime)), JsString(r.status), JsString(r.verifyMode));
    }
    BodyLinesOfJoined(lines);
    ResultsOfParsed(AttemptAll(lines, ParseAttlogLine), records);
  }
}
