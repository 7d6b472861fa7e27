/**
 The CSV export of the audit log (src/api/handlers/audit.rs).

 The printer is compared with a reader for the grammar in section 2 of RFC 4180 (records of
 comma-separated fields, a field quoted or not, a quote inside a quoted field doubled), which ends
 records at LF as well as at CR LF. What the reader finds in an export is exactly the stored rows.
 */
module Audit {
  import opened Common

  datatype Entry = Entry(
    id: Option<int>, createdAt: int,
    userEmail: string, userRole: string, action: string, resourceType: string,
    resourceId: Option<string>, resourceName: Option<string>)

  // ---------- the printer ----------

  function Digits(n: nat): string {
    var last := [(n % 10 + 48) as char];
    if n < 10 then last else Digits(n / 10) + last
  }

  function Decimal(n: int): string {
    if n < 0 then "-" + Digits(-n) else Digits(n)
  }

  function Doubled(text: string): string {
    if text == "" then "" else (if text[0] == '"' then "\"\"" else [text[0]]) + Doubled(text[1..])
  }

  function CleanChar(c: char): char {
    if c == '\r' || c == '\n' then ' ' else c
  }

  function Clean(text: string): (clean: string)
    ensures |clean| == |text|
    ensures forall i :: 0 <= i < |text| ==> clean[i] == CleanChar(text[i])
  {
    seq(|text|, i requires 0 <= i < |text| => CleanChar(text[i]))
  }

  /** A line break becomes a space, every other character stays. */
  lemma CleanMeans(text: string, i: nat)
    requires i < |text|
    ensures Clean(text)[i] == if text[i] in {'\r', '\n'} then ' ' else text[i]
  {
  }

  function CsvField(text: string): string {
    Clean(Doubled(text))
  }

  function OrEmpty(text: Option<string>): string {
    if text.Some? then text.value else ""
  }

  function Texts(e: Entry): seq<string> {
    [e.userEmail, e.userRole, e.action, e.resourceType, OrEmpty(e.resourceId), OrEmpty(e.resourceName)]
  }

  function Quoted(texts: seq<string>): string {
    if texts == [] then "" else Quote(texts[0]) + Quoted(texts[1..])
  }

  function Id(e: Entry): int {
    if e.id.Some? then e.id.value else 0
  }

  function Line(e: Entry): string {
    Decimal(Id(e)) + "," + Decimal(e.createdAt) + Quoted(Texts(e)) + "\n"
  }

  function Header(): seq<string> {
    ["id", "created_at", "user_email", "user_role", "action", "resource_type", "resource_id", "resource_name"]
  }

  /** A line of names that need no quotes. */
  function Joined(names: seq<string>): string
    requires names != []
  {
    if |names| == 1 then names[0] + "\n" else names[0] + "," + Joined(names[1..])
  }

  function Lines(entries: seq<Entry>): string {
    if entries == [] then "" else Lines(entries[..|entries| - 1]) + Line(entries[|entries| - 1])
  }

  function Exported(entries: seq<Entry>): string {
    Joined(Header()) + Lines(entries)
  }

  /** The handler's loop. */
  method PushLines(header: string, entries: seq<Entry>) returns (csv: string)
    ensures csv == header + Lines(entries)
  {
    csv := header;
    for i := 0 to |entries|
      invariant csv == Printed(header, entries, i)
    {
      csv := csv + Line(entries[i]);
    }
    PrintedIsLines(header, entries, |entries|);
    assert entries[..|entries|] == entries;
  }

  /** The text after `n` rounds. */
  function Printed(header: string, entries: seq<Entry>, n: nat): string
    requires n <= |entries|
  {
    if n == 0 then header else Printed(header, entries, n - 1) + Line(entries[n - 1])
  }

  lemma LastLine(entries: seq<Entry>, n: nat)
    requires 0 < n <= |entries|
    ensures Lines(entries[..n]) == Lines(entries[..n - 1]) + Line(entries[n - 1])
  {
    assert entries[..n][..n - 1] == entries[..n - 1];
  }

  lemma {:induction false} PrintedIsLines(header: string, entries: seq<Entry>, n: nat)
    requires n <= |entries|
    ensures Printed(header, entries, n) == header + Lines(entries[..n])
    decreases n
  {
    if n > 0 {
      PrintedIsLines(header, entries, n - 1);
      LastLine(entries, n);
      OneMore(Printed(header, entries, n), Printed(header, entries, n - 1), header,
              Lines(entries[..n]), Lines(entries[..n - 1]), Line(entries[n - 1]));
    }
  }

  lemma OneMore(after: string, before: string, a: string, c: string, b: string, line: string)
    requires before == a + b && c == b + line && after == before + line
    ensures after == a + c
  {
    Concat(a, b, line);
  }

  lemma Concat(a: string, b: string, c: string)
    ensures a + b + c == a + (b + c)
  {
  }

  /** Reading the export back gives the header and one record per entry. */
  method Export(entries: seq<Entry>) returns (csv: string)
    ensures Read(csv) == Some([Header()] + Records(entries))
  {
    csv := PushLines(Joined(Header()), entries);
    ReadsBack(entries);
  }

  function Quote(text: string): string {
    ",\"" + CsvField(text) + "\""
  }

  // ---------- the reader ----------

  datatype Mode = FieldStart | Plain | InQuotes | QuoteInQuotes | AfterReturn | Bad

  datatype Reader = Reader(mode: Mode, field: string, fields: seq<string>, records: seq<seq<string>>)

  const START := Reader(FieldStart, "", [], [])

  function EndField(r: Reader): Reader {
    Reader(FieldStart, "", r.fields + [r.field], r.records)
  }

  function EndRecord(r: Reader): Reader {
    Reader(FieldStart, "", [], r.records + [r.fields + [r.field]])
  }

  function Keep(r: Reader, mode: Mode, c: char): Reader {
    r.(mode := mode, field := r.field + [c])
  }

  /** A comma, LF or CR outside quotes. */
  function Separate(r: Reader, c: char): Reader {
    if c == ',' then EndField(r)
    else if c == '\n' then EndRecord(r)
    else if c == '\r' then r.(mode := AfterReturn)
    else r.(mode := Bad)
  }

  predicate IsSeparator(c: char) {
    c == ',' || c == '\n' || c == '\r'
  }

  function Step(r: Reader, c: char): Reader {
    match r.mode
    case FieldStart =>
      if c == '"' then r.(mode := InQuotes)
      else if IsSeparator(c) then Separate(r, c)
      else Keep(r, Plain, c)
    case Plain =>
      if c == '"' then r.(mode := Bad)
      else if IsSeparator(c) then Separate(r, c)
      else Keep(r, Plain, c)
    case InQuotes => if c == '"' then r.(mode := QuoteInQuotes) else Keep(r, InQuotes, c)
    case QuoteInQuotes => if c == '"' then Keep(r, InQuotes, c) else Separate(r, c)
    case AfterReturn => if c == '\n' then EndRecord(r) else r.(mode := Bad)
    case Bad => r
  }

  function Run(r: Reader, text: string): Reader
    decreases |text|
  {
    if text == "" then r else Run(Step(r, text[0]), text[1..])
  }

  /** The records of a text, or nothing if it is not a CSV file. The last record needs no line end. */
  function Read(text: string): Option<seq<seq<string>>> {
    var r := Run(START, text);
    match r.mode
    case FieldStart => Some(if r.fields == [] then r.records else EndRecord(r).records)
    case Plain => Some(EndRecord(r).records)
    case QuoteInQuotes => Some(EndRecord(r).records)
    case _ => None
  }

  lemma {:induction false} RunAppend(r: Reader, a: string, b: string)
    ensures Run(r, a + b) == Run(Run(r, a), b)
    decreases |a|
  {
    if a == "" {
      assert a + b == b;
    } else {
      assert (a + b)[1..] == a[1..] + b;
      RunAppend(Step(r, a[0]), a[1..], b);
    }
  }

  // ---------- reading back ----------

  predicate IsPlain(text: string) {
    forall i :: 0 <= i < |text| ==> text[i] != '"' && !IsSeparator(text[i])
  }

  lemma {:induction false} RunPlain(r: Reader, text: string)
    requires IsPlain(text) && (r.mode == Plain || r.mode == FieldStart)
    ensures Run(r, text) == if text == "" then r else r.(mode := Plain, field := r.field + text)
    decreases |text|
  {
    if text != "" {
      RunPlain(Step(r, text[0]), text[1..]);
      assert text == [text[0]] + text[1..];
      assert r.field + [text[0]] + text[1..] == r.field + text;
    }
  }

  lemma CsvFieldUnfolds(text: string)
    requires text != ""
    ensures CsvField(text) ==
            (if text[0] == '"' then "\"\"" else [CleanChar(text[0])]) + CsvField(text[1..])
  {
  }

  lemma CleanUnfolds(text: string)
    requires text != ""
    ensures Clean(text) == [CleanChar(text[0])] + Clean(text[1..])
  {
  }

  lemma RunTwo(r: Reader, c: char, d: char, rest: string)
    ensures Run(r, [c, d] + rest) == Run(Step(Step(r, c), d), rest)
  {
    assert ([c, d] + rest)[1..] == [d] + rest;
    assert ([d] + rest)[1..] == rest;
  }

  lemma RunOne(r: Reader, c: char, rest: string)
    ensures Run(r, [c] + rest) == Run(Step(r, c), rest)
  {
    assert ([c] + rest)[1..] == rest;
  }

  lemma RunEscapedChar(r: Reader, text: string)
    requires r.mode == InQuotes && text != ""
    ensures Run(r, CsvField(text)) == Run(Keep(r, InQuotes, CleanChar(text[0])), CsvField(text[1..]))
  {
    CsvFieldUnfolds(text);
    if text[0] == '"' {
      RunTwo(r, '"', '"', CsvField(text[1..]));
    } else {
      RunOne(r, CleanChar(text[0]), CsvField(text[1..]));
    }
  }

  /** Inside quotes an escaped text is read as the text itself, line breaks turned into spaces. */
  lemma {:induction false} RunEscaped(r: Reader, text: string)
    requires r.mode == InQuotes
    ensures Run(r, CsvField(text)) == r.(field := r.field + Clean(text))
    decreases |text|
  {
    if text == "" {
      assert CsvField(text) == "" && Clean(text) == "";
    } else {
      var c := CleanChar(text[0]);
      RunEscapedChar(r, text);
      RunEscaped(Keep(r, InQuotes, c), text[1..]);
      CleanUnfolds(text);
      Concat(r.field, [c], Clean(text[1..]));
    }
  }

  function Cleaned(texts: seq<string>): (clean: seq<string>)
    ensures |clean| == |texts|
  {
    seq(|texts|, i requires 0 <= i < |texts| => Clean(texts[i]))
  }

  /** One more quoted field. */
  lemma RunQuote(r: Reader, text: string)
    requires r.mode == Plain || r.mode == QuoteInQuotes
    ensures Run(r, Quote(text)) == Reader(QuoteInQuotes, Clean(text), r.fields + [r.field], r.records)
  {
    var inside := EndField(r).(mode := InQuotes);
    assert Quote(text) == [',', '"'] + (CsvField(text) + "\"");
    RunTwo(r, ',', '"', CsvField(text) + "\"");
    RunAppend(inside, CsvField(text), "\"");
    RunEscaped(inside, text);
    assert "" + Clean(text) == Clean(text);
    RunOne(inside.(field := Clean(text)), '"', "");
  }

  lemma CleanedFirst(fields: seq<string>, texts: seq<string>)
    requires texts != []
    ensures fields + [Clean(texts[0])] + Cleaned(texts[1..]) == fields + Cleaned(texts)
  {
    assert Cleaned(texts) == [Clean(texts[0])] + Cleaned(texts[1..]);
  }

  lemma {:induction false} RunQuoted(r: Reader, texts: seq<string>)
    requires r.mode == Plain || r.mode == QuoteInQuotes
    ensures Run(r, Quoted(texts) + "\n") ==
            Reader(FieldStart, "", [], r.records + [r.fields + [r.field] + Cleaned(texts)])
    decreases |texts|
  {
    if texts == [] {
      assert Quoted(texts) + "\n" == ['\n'] + "";
      RunOne(r, '\n', "");
      assert r.fields + [r.field] + Cleaned(texts) == r.fields + [r.field];
    } else {
      var rest := Quoted(texts[1..]) + "\n";
      Concat(Quote(texts[0]), Quoted(texts[1..]), "\n");
      RunAppend(r, Quote(texts[0]), rest);
      RunQuote(r, texts[0]);
      RunQuoted(Reader(QuoteInQuotes, Clean(texts[0]), r.fields + [r.field], r.records), texts[1..]);
      CleanedFirst(r.fields + [r.field], texts);
    }
  }

  lemma {:induction false} DigitsArePlain(n: nat)
    ensures Digits(n) != "" && forall i :: 0 <= i < |Digits(n)| ==> '0' <= Digits(n)[i] <= '9'
  {
    if n >= 10 {
      DigitsArePlain(n / 10);
    }
  }

  lemma DecimalIsPlain(n: int)
    ensures Decimal(n) != "" && IsPlain(Decimal(n))
  {
    DigitsArePlain(if n < 0 then -n else n);
  }

  /** What a record of the export must hold: two numbers and the six texts. */
  function Record(e: Entry): seq<string> {
    [Decimal(Id(e)), Decimal(e.createdAt)] + Cleaned(Texts(e))
  }

  function Records(entries: seq<Entry>): (records: seq<seq<string>>)
    ensures |records| == |entries|
    ensures forall i :: 0 <= i < |entries| ==> records[i] == Record(entries[i])
  {
    seq(|entries|, i requires 0 <= i < |entries| => Record(entries[i]))
  }

  /** A field without quotes. */
  lemma RunField(fields: seq<string>, records: seq<seq<string>>, name: string, rest: string)
    requires name != "" && IsPlain(name)
    ensures Run(Reader(FieldStart, "", fields, records), name + rest) ==
            Run(Reader(Plain, name, fields, records), rest)
  {
    var r := Reader(FieldStart, "", fields, records);
    RunAppend(r, name, rest);
    RunPlain(r, name);
    assert "" + name == name;
  }

  lemma RunLine(records: seq<seq<string>>, e: Entry)
    ensures Run(START.(records := records), Line(e)) == START.(records := records + [Record(e)])
  {
    var id, at, tail := Decimal(Id(e)), Decimal(e.createdAt), Quoted(Texts(e)) + "\n";
    DecimalIsPlain(Id(e));
    DecimalIsPlain(e.createdAt);
    RunNumbers(records, id, at, tail);
    RunQuoted(Reader(Plain, at, [id], records), Texts(e));
    assert Line(e) == id + "," + at + tail;
    assert [id] + [at] + Cleaned(Texts(e)) == Record(e);
  }

  lemma RunComma(fields: seq<string>, records: seq<seq<string>>, name: string, rest: string)
    requires name != "" && IsPlain(name)
    ensures Run(Reader(FieldStart, "", fields, records), name + "," + rest) ==
            Run(Reader(FieldStart, "", fields + [name], records), rest)
  {
    assert name + "," + rest == name + ([','] + rest);
    RunField(fields, records, name, [','] + rest);
    RunOne(Reader(Plain, name, fields, records), ',', rest);
  }

  lemma RunNumbers(records: seq<seq<string>>, id: string, at: string, tail: string)
    requires id != "" && IsPlain(id) && at != "" && IsPlain(at)
    ensures Run(START.(records := records), id + "," + at + tail) == Run(Reader(Plain, at, [id], records), tail)
  {
    assert id + "," + at + tail == id + "," + (at + tail);
    RunComma([], records, id, at + tail);
    assert [] + [id] == [id];
    RunField([id], records, at, tail);
  }

  lemma LastRecord(entries: seq<Entry>)
    requires entries != []
    ensures Records(entries) == Records(entries[..|entries| - 1]) + [Record(entries[|entries| - 1])]
  {
  }

  lemma {:induction false} RunLines(records: seq<seq<string>>, entries: seq<Entry>)
    ensures Run(START.(records := records), Lines(entries)) == START.(records := records + Records(entries))
    decreases |entries|
  {
    if entries == [] {
      assert records + Records(entries) == records;
    } else {
      var before, last := entries[..|entries| - 1], entries[|entries| - 1];
      RunAppend(START.(records := records), Lines(before), Line(last));
      RunLines(records, before);
      RunLine(records + Records(before), last);
      LastRecord(entries);
      Associate(records, Records(before), [Record(last)]);
    }
  }

  lemma Associate(a: seq<seq<string>>, b: seq<seq<string>>, c: seq<seq<string>>)
    ensures a + (b + c) == a + b + c
  {
  }

  predicate PlainNames(names: seq<string>) {
    names != [] && forall i :: 0 <= i < |names| ==> names[i] != "" && IsPlain(names[i])
  }

  lemma {:induction false} RunJoined(fields: seq<string>, names: seq<string>)
    requires PlainNames(names)
    ensures Run(Reader(FieldStart, "", fields, []), Joined(names)) == START.(records := [fields + names])
    decreases |names|
  {
    if |names| == 1 {
      RunField(fields, [], names[0], "\n");
      assert ['\n'] + "" == "\n";
      RunOne(Reader(Plain, names[0], fields, []), '\n', "");
      assert fields + [names[0]] == fields + names;
    } else {
      RunComma(fields, [], names[0], Joined(names[1..]));
      RunJoined(fields + [names[0]], names[1..]);
      assert fields + [names[0]] + names[1..] == fields + names;
    }
  }

  lemma ReadsBackUnder(header: seq<string>, entries: seq<Entry>)
    requires PlainNames(header)
    ensures Read(Joined(header) + Lines(entries)) == Some([header] + Records(entries))
  {
    RunJoined([], header);
    assert [] + header == header;
    RunAppend(START, Joined(header), Lines(entries));
    RunLines([header], entries);
  }

  /** The export of any entries reads as the header and one record of eight fields for each. */
  lemma ReadsBack(entries: seq<Entry>)
    ensures Read(Exported(entries)) == Some([Header()] + Records(entries))
    ensures forall i :: 0 <= i < |entries| ==> |Records(entries)[i]| == |Header()| == 8
  {
    HeaderIsPlain();
    ReadsBackUnder(Header(), entries);
  }

  lemma HeaderIsPlain()
    ensures PlainNames(Header())
  {
    assert IsPlain("id") && IsPlain("created_at") && IsPlain("user_email") && IsPlain("user_role");
    assert IsPlain("action") && IsPlain("resource_type") && IsPlain("resource_id") && IsPlain("resource_name");
  }

  // ---------- what the reader's fields say about the entry ----------

  function ReadDigits(text: string): int {
    if text == "" then 0 else ReadDigits(text[..|text| - 1]) * 10 + (text[|text| - 1] as int - 48)
  }

  function ReadDecimal(text: string): int {
    if text != "" && text[0] == '-' then -ReadDigits(text[1..]) else ReadDigits(text)
  }

  lemma {:induction false} DigitsRead(n: nat)
    ensures ReadDigits(Digits(n)) == n
  {
    if n >= 10 {
      DigitsRead(n / 10);
      assert Digits(n)[..|Digits(n)| - 1] == Digits(n / 10);
    } else {
      assert Digits(n)[..0] == "";
    }
  }

  lemma NumbersReadBack(n: int)
    ensures ReadDecimal(Decimal(n)) == n
  {
    if n < 0 {
      assert Decimal(n)[1..] == Digits(-n);
      DigitsRead(-n);
    } else {
      DigitsArePlain(n);
      DigitsRead(n);
    }
  }

  lemma {:induction false} NoLeadingZero(n: nat)
    ensures Digits(n) != "" && (n > 0 ==> Digits(n)[0] != '0') && (n < 10 ==> |Digits(n)| == 1)
  {
    if n >= 10 {
      NoLeadingZero(n / 10);
    }
  }

  /** A number is printed as one expects: a sign only below zero, and no zero in front but that of 0 itself. */
  lemma DecimalMeans(n: int)
    ensures Decimal(n) != "" && (Decimal(n)[0] == '-' <==> n < 0)
    ensures n < 0 ==> Decimal(n) == "-" + Decimal(-n)
    ensures n >= 0 && Decimal(n)[0] == '0' ==> Decimal(n) == "0"
  {
    if n >= 0 {
      NoLeadingZero(n);
      DigitsArePlain(n);
    }
  }

  /** The columns by name, and what a row has in each: line breaks as spaces, missing values as 0 and empty. */
  lemma ColumnsMean(e: Entry)
    ensures Header() ==
            ["id", "created_at", "user_email", "user_role", "action", "resource_type", "resource_id", "resource_name"]
    ensures Record(e) ==
            [Decimal(if e.id.Some? then e.id.value else 0), Decimal(e.createdAt),
             Clean(e.userEmail), Clean(e.userRole), Clean(e.action), Clean(e.resourceType),
             Clean(if e.resourceId.Some? then e.resourceId.value else ""),
             Clean(if e.resourceName.Some? then e.resourceName.value else "")]
  {
  }

  predicate SingleLine(text: string) {
    '\r' !in text && '\n' !in text
  }

  /** A text comes back unchanged exactly when it has no line break. */
  lemma TextReadsBackExactly(text: string)
    ensures Clean(text) == text <==> SingleLine(text)
  {
    if !SingleLine(text) {
      var i :| 0 <= i < |text| && (text[i] == '\r' || text[i] == '\n');
      assert Clean(text)[i] != text[i];
    }
  }

  lemma SameCleaned(texts: seq<string>)
    requires forall i :: 0 <= i < |texts| ==> SingleLine(texts[i])
    ensures Cleaned(texts) == texts
  {
    forall i | 0 <= i < |texts| ensures Clean(texts[i]) == texts[i] {
      TextReadsBackExactly(texts[i]);
    }
  }

  predicate SingleLines(e: Entry) {
    forall i :: 0 <= i < |Texts(e)| ==> SingleLine(Texts(e)[i])
  }

  /**
   Entries without line breaks can be told apart by their export, up to a missing id, resource
   id or name, which print like 0 and the empty text.
   */
  lemma ExportIsInjective(a: seq<Entry>, b: seq<Entry>)
    requires forall i :: 0 <= i < |a| ==> SingleLines(a[i])
    requires forall i :: 0 <= i < |b| ==> SingleLines(b[i])
    requires Exported(a) == Exported(b)
    ensures |a| == |b|
    ensures forall i :: 0 <= i < |a| ==>
              Id(a[i]) == Id(b[i]) && a[i].createdAt == b[i].createdAt && Texts(a[i]) == Texts(b[i])
  {
    ReadsBack(a);
    ReadsBack(b);
    assert Records(a) == ([Header()] + Records(a))[1..] == ([Header()] + Records(b))[1..] == Records(b);
    forall i | 0 <= i < |a|
      ensures Id(a[i]) == Id(b[i]) && a[i].createdAt == b[i].createdAt && Texts(a[i]) == Texts(b[i])
    {
      assert Record(a[i]) == Records(a)[i] == Records(b)[i] == Record(b[i]);
      RecordIdentifies(a[i], b[i]);
    }
  }

  lemma RecordIdentifies(a: Entry, b: Entry)
    requires SingleLines(a) && SingleLines(b) && Record(a) == Record(b)
    ensures Id(a) == Id(b) && a.createdAt == b.createdAt && Texts(a) == Texts(b)
  {
    SameCleaned(Texts(a));
    SameCleaned(Texts(b));
    assert Record(a)[2..] == Texts(a) && Record(b)[2..] == Texts(b);
    assert Record(a)[0] == Record(b)[0] && Record(a)[1] == Record(b)[1];
    NumbersReadBack(Id(a));
    NumbersReadBack(Id(b));
    NumbersReadBack(a.createdAt);
    NumbersReadBack(b.createdAt);
  }
}
