/** The statement CSV reader (apps/api/src/imports/imports.service.ts) and the workspace CSV
    writer (apps/api/src/imports/workspace-export.service.ts), and how far they undo each other. */
module Csv {
  import opened Common
  import opened Sequences
  import opened Decimal

  const QUOTE: char := '\"'
  const CRLF: string := "\r\n"

  datatype CsvError = UnterminatedQuote

  type Table = seq<seq<string>>

  // ------------------------------------------------------------------ reader

  /** The reader's four variables between two iterations of its loop. */
  datatype Scanner = Scanner(rows: Table, row: seq<string>, field: string, quoted: bool)

  const START: Scanner := Scanner([], [], "", false)

  /** Characters one iteration consumes: an escaped quote and a CRLF count as one step. */
  function Width(s: string, quoted: bool): (k: nat)
    requires s != ""
    ensures 1 <= k <= |s|
  {
    if s[0] == QUOTE && quoted && |s| > 1 && s[1] == QUOTE then 2
    else if s[0] == '\r' && !quoted && |s| > 1 && s[1] == '\n' then 2
    else 1
  }

  function Step(s: string, st: Scanner): Scanner
    requires s != ""
  {
    if s[0] == QUOTE && st.quoted && |s| > 1 && s[1] == QUOTE then st.(field := st.field + [QUOTE])
    else if s[0] == QUOTE then st.(quoted := !st.quoted)
    else if s[0] == ',' && !st.quoted then st.(row := st.row + [st.field], field := "")
    else if (s[0] == '\n' || s[0] == '\r') && !st.quoted then
      Scanner(st.rows + [st.row + [st.field]], [], "", false)
    else st.(field := st.field + [s[0]])
  }

  function Scan(s: string, st: Scanner): Scanner
    decreases |s|
  {
    if s == "" then st else Scan(s[Width(s, st.quoted)..], Step(s, st))
  }

  function Finish(st: Scanner): Result<Table, CsvError> {
    if st.quoted then Err(UnterminatedQuote)
    else if st.field != "" || st.row != [] then Ok(st.rows + [st.row + [st.field]])
    else Ok(st.rows)
  }

  function Records(content: string): Result<Table, CsvError> {
    Finish(Scan(content, START))
  }

  method CsvRecords(content: string) returns (r: Result<Table, CsvError>)
    ensures r == Records(content)
  {
    var rows: Table := [];
    var row: seq<string> := [];
    var field := "";
    var quoted := false;
    var i := 0;
    while i < |content|
      invariant 0 <= i <= |content|
      invariant Scan(content[i..], Scanner(rows, row, field, quoted)) == Scan(content, START)
    {
      var c := content[i];
      ghost var rest := content[i..];
      ghost var before := Scanner(rows, row, field, quoted);
      ghost var start := i;
      if c == QUOTE && quoted && i + 1 < |content| && content[i + 1] == QUOTE {
        field := field + [QUOTE];
        i := i + 1;
      } else if c == QUOTE {
        quoted := !quoted;
      } else if c == ',' && !quoted {
        row := row + [field];
        field := "";
      } else if (c == '\n' || c == '\r') && !quoted {
        if c == '\r' && i + 1 < |content| && content[i + 1] == '\n' {
          i := i + 1;
        }
        row := row + [field];
        rows := rows + [row];
        row := [];
        field := "";
      } else {
        field := field + [c];
      }
      i := i + 1;
      assert content[i..] == rest[Width(rest, before.quoted)..];
      assert Scanner(rows, row, field, quoted) == Step(rest, before);
    }
    assert content[i..] == "";
    if field != "" || row != [] {
      row := row + [field];
      rows := rows + [row];
    }
    if quoted {
      return Err(UnterminatedQuote);
    }
    return Ok(rows);
  }

  // ------------------------------------------------------------------ reader on its own

  function Quotes(s: string): nat {
    if s == "" then 0 else (if s[0] == QUOTE then 1 else 0) + Quotes(s[1..])
  }

  predicate OddQuotes(s: string) {
    s != "" && (s[0] == QUOTE) != OddQuotes(s[1..])
  }

  lemma {:induction false} OddQuotesCounts(s: string)
    ensures OddQuotes(s) <==> Quotes(s) % 2 == 1
  {
    if s != "" {
      OddQuotesCounts(s[1..]);
    }
  }

  lemma {:induction false} ScanKeepsQuoteParity(s: string, st: Scanner)
    ensures Scan(s, st).quoted <==> OddQuotes(s) != st.quoted
    decreases |s|
  {
    if s != "" {
      var k := Width(s, st.quoted);
      var next := Step(s, st);
      ScanKeepsQuoteParity(s[k..], next);
      assert OddQuotes(s) <==> (s[0] == QUOTE) != OddQuotes(s[1..]);
      if k == 2 {
        assert OddQuotes(s[1..]) <==> (s[1] == QUOTE) != OddQuotes(s[1..][1..]);
        assert s[1..][1..] == s[2..];
      }
    }
  }

  /** The reader rejects a text exactly when it holds an odd number of quotes. */
  lemma RejectedExactlyWhenQuotesAreOdd(content: string)
    ensures Records(content).Err? <==> Quotes(content) % 2 == 1
  {
    ScanKeepsQuoteParity(content, START);
    OddQuotesCounts(content);
  }

  predicate HaveCells(rows: Table) {
    forall i :: 0 <= i < |rows| ==> rows[i] != []
  }

  lemma {:induction false} ScanRowsNonEmpty(s: string, st: Scanner)
    requires HaveCells(st.rows)
    ensures HaveCells(Scan(s, st).rows)
    decreases |s|
  {
    if s != "" {
      ScanRowsNonEmpty(s[Width(s, st.quoted)..], Step(s, st));
    }
  }

  /** No record the reader returns is without fields. */
  lemma RecordsHaveFields(content: string)
    requires Records(content).Ok?
    ensures HaveCells(Records(content).value)
  {
    ScanRowsNonEmpty(content, START);
  }

  // ------------------------------------------------------------------ any text of RFC 4180

  function DoubleQuotes(text: string): string {
    if text == "" then ""
    else (if text[0] == QUOTE then [QUOTE, QUOTE] else [text[0]]) + DoubleQuotes(text[1..])
  }

  function InQuotes(text: string): string {
    [QUOTE] + DoubleQuotes(text) + [QUOTE]
  }

  predicate Plain(s: string) {
    forall c :: c in s ==> c != QUOTE && c != ',' && c != '\r' && c != '\n'
  }

  /** A field as section 2 of RFC 4180 writes it, bare or in quotes. */
  datatype Field = Bare(text: string) | Quoted(text: string)

  predicate IsField(f: Field) {
    f.Bare? ==> Plain(f.text)
  }

  function Written(f: Field): string {
    if f.Bare? then f.text else InQuotes(f.text)
  }

  datatype Break = LineFeed | CarriageReturn | Both

  function BreakText(b: Break): string {
    match b
    case LineFeed => "\n"
    case CarriageReturn => "\r"
    case Both => CRLF
  }

  type Fields = seq<seq<Field>>

  predicate IsRecord(fields: seq<Field>) {
    fields != [] && forall k :: 0 <= k < |fields| ==> IsField(fields[k])
  }

  predicate AreRecords(rows: Fields) {
    forall i :: 0 <= i < |rows| ==> IsRecord(rows[i])
  }

  function WrittenRecord(fields: seq<Field>): string {
    Join(Map(Written, fields), ",")
  }

  /** The records in order, each with its line break; the last may go without. */
  predicate Fit(rows: Fields, breaks: seq<Break>) {
    AreRecords(rows) && |breaks| <= |rows| <= |breaks| + 1
  }

  function WrittenRecords(rows: Fields, breaks: seq<Break>): string
    requires |breaks| <= |rows|
  {
    if rows == [] then ""
    else if breaks == [] then WrittenRecord(rows[0])
    else WrittenRecord(rows[0]) + (BreakText(breaks[0]) + WrittenRecords(rows[1..], breaks[1..]))
  }

  function FieldText(f: Field): string {
    f.text
  }

  function RecordText(fields: seq<Field>): (r: seq<string>)
    ensures |r| == |fields|
  {
    Map(FieldText, fields)
  }

  function Texts(rows: Fields): (t: Table)
    ensures |t| == |rows|
  {
    Map(RecordText, rows)
  }

  /** What may follow a field; after a quoted one, no further quote. */
  predicate AfterField(rest: string) {
    rest == "" || rest[0] == ',' || rest[0] == '\r' || rest[0] == '\n'
  }

  lemma {:induction false} ScanQuotedBody(text: string, rest: string, st: Scanner)
    requires st.quoted && AfterField(rest)
    ensures Scan(DoubleQuotes(text) + [QUOTE] + rest, st)
            == Scan(rest, st.(field := st.field + text, quoted := false))
    decreases |text|
  {
    var s := DoubleQuotes(text) + [QUOTE] + rest;
    if text == "" {
      assert s == [QUOTE] + rest && s[1..] == rest;
      assert st.field + text == st.field;
    } else {
      var tail := DoubleQuotes(text[1..]) + [QUOTE] + rest;
      var head := if text[0] == QUOTE then [QUOTE, QUOTE] else [text[0]];
      assert s == head + tail && s[|head|..] == tail;
      assert Width(s, true) == |head|;
      var next := st.(field := st.field + [text[0]]);
      assert Step(s, st) == next;
      ScanQuotedBody(text[1..], rest, next);
      assert next.field + text[1..] == st.field + text;
    }
  }

  lemma {:induction false} ScanPlainField(text: string, rest: string, st: Scanner)
    requires Plain(text) && !st.quoted
    ensures Scan(text + rest, st) == Scan(rest, st.(field := st.field + text))
    decreases |text|
  {
    var s := text + rest;
    if text == "" {
      assert s == rest && st.field + text == st.field;
    } else {
      assert s[1..] == text[1..] + rest;
      assert text[0] in text && forall c :: c in text[1..] ==> c in text;
      var next := st.(field := st.field + [text[0]]);
      assert Step(s, st) == next;
      ScanPlainField(text[1..], rest, next);
      assert next.field + text[1..] == st.field + text;
    }
  }

  lemma ScanField(f: Field, rest: string, st: Scanner)
    requires IsField(f) && !st.quoted && st.field == "" && AfterField(rest)
    ensures Scan(Written(f) + rest, st) == Scan(rest, st.(field := f.text))
  {
    assert st.field + f.text == f.text;
    if f.Bare? {
      ScanPlainField(f.text, rest, st);
    } else {
      var body := DoubleQuotes(f.text) + [QUOTE] + rest;
      var s := Written(f) + rest;
      assert s == [QUOTE] + body && s[1..] == body;
      assert Step(s, st) == st.(quoted := true);
      ScanQuotedBody(f.text, rest, st.(quoted := true));
    }
  }

  /** A bare comma hands the pending field over. */
  lemma ScanComma(rest: string, st: Scanner)
    requires !st.quoted
    ensures Scan("," + rest, st) == Scan(rest, st.(row := st.row + [st.field], field := ""))
  {
  }

  lemma SingleField(fields: seq<Field>)
    requires |fields| == 1
    ensures WrittenRecord(fields) == Written(fields[0])
  {
  }

  lemma RecordSplits(fields: seq<Field>, rest: string)
    requires |fields| > 1
    ensures WrittenRecord(fields) + rest == Written(fields[0]) + ("," + (WrittenRecord(fields[1..]) + rest))
  {
    assert Map(Written, fields)[1..] == Map(Written, fields[1..]);
    Regroup(Written(fields[0]), ",", WrittenRecord(fields[1..]), rest);
  }

  lemma {:induction false} ScanRecord(fields: seq<Field>, rest: string, st: Scanner)
    requires IsRecord(fields) && !st.quoted && st.field == ""
    requires rest == "" || rest[0] == '\r' || rest[0] == '\n'
    ensures Scan(WrittenRecord(fields) + rest, st)
            == Scan(rest, st.(row := st.row + Front(RecordText(fields)), field := Last(RecordText(fields))))
    decreases |fields|
  {
    hide Scan, Step, Width, Written, IsField, AfterField, WrittenRecord;
    if |fields| == 1 {
      SingleField(fields);
      ScanField(fields[0], rest, st);
      assert st.row + Front(RecordText(fields)) == st.row;
    } else {
      var more := WrittenRecord(fields[1..]) + rest;
      RecordSplits(fields, rest);
      ScanField(fields[0], "," + more, st);
      var next := st.(row := st.row + [fields[0].text]);
      ScanComma(more, st.(field := fields[0].text));
      ScanRecord(fields[1..], rest, next);
      assert next.row + Front(RecordText(fields[1..])) == st.row + Front(RecordText(fields));
    }
  }

  /** A line break hands the pending row over and leaves a clean scanner. */
  lemma ScanBreak(b: Break, rest: string, st: Scanner)
    requires !st.quoted && !(b == CarriageReturn && StartsWithLineFeed(rest))
    ensures Scan(BreakText(b) + rest, st) == Scan(rest, Scanner(st.rows + [st.row + [st.field]], [], "", false))
  {
    var s := BreakText(b) + rest;
    assert Width(s, false) == |BreakText(b)| && s[|BreakText(b)|..] == rest;
  }

  predicate StartsWithLineFeed(s: string) {
    s != "" && s[0] == '\n'
  }

  /** The one ambiguity of such texts: a bare CR before an empty record that ends in LF reads as one CRLF. */
  predicate BlendsAt(rows: Fields, breaks: seq<Break>, i: nat)
    requires |breaks| <= |rows|
  {
    i + 1 < |breaks| && breaks[i] == CarriageReturn && rows[i + 1] == [Bare("")] && breaks[i + 1] == LineFeed
  }

  lemma FirstCharacter(rows: Fields, breaks: seq<Break>)
    requires Fit(rows, breaks)
    ensures StartsWithLineFeed(WrittenRecords(rows, breaks))
            <==> breaks != [] && rows[0] == [Bare("")] && breaks[0] == LineFeed
  {
    if rows != [] {
      var line := WrittenRecord(rows[0]);
      assert IsRecord(rows[0]);
      var f := rows[0][0];
      assert IsField(f);
      assert line == Written(f) + if |rows[0]| == 1 then "" else "," + WrittenRecord(rows[0][1..])
      by { if |rows[0]| > 1 { RecordSplits(rows[0], ""); assert line + "" == line; } }
      hide Join;
      if f.Bare? && f.text != "" {
        assert f.text[0] in f.text;
      }
    }
  }

  /** A last record without a line break that is a single empty field leaves no trace in the text. */
  predicate LeavesNoTrace(rows: Fields, breaks: seq<Break>) {
    |breaks| < |rows| && RecordText(Last(rows)) == [""]
  }

  /** What the reader makes of such a text. */
  function Seen(rows: Fields, breaks: seq<Break>): Table
    requires |breaks| <= |rows| <= |breaks| + 1
  {
    if rows == [] then []
    else if breaks == [] then (if RecordText(rows[0]) == [""] then [] else [RecordText(rows[0])])
    else if BlendsAt(rows, breaks, 0) then [RecordText(rows[0])] + Seen(rows[2..], breaks[2..])
    else [RecordText(rows[0])] + Seen(rows[1..], breaks[1..])
  }

  lemma EmptyScan(st: Scanner)
    ensures Scan("", st) == st
  {
  }

  /** The scanner when record `fields` has just been read. */
  function Pending(done: Table, fields: seq<Field>): Scanner
    requires fields != []
  {
    Scanner(done, Front(RecordText(fields)), Last(RecordText(fields)), false)
  }

  lemma ScanFirstRecord(rows: Fields, rest: string, done: Table)
    requires rows != [] && AreRecords(rows)
    requires rest == "" || rest[0] == '\r' || rest[0] == '\n'
    ensures Scan(WrittenRecord(rows[0]) + rest, Scanner(done, [], "", false)) == Scan(rest, Pending(done, rows[0]))
    ensures Pending(done, rows[0]).row + [Pending(done, rows[0]).field] == RecordText(rows[0])
  {
    hide Scan, WrittenRecord, IsField;
    ScanRecord(rows[0], rest, Scanner(done, [], "", false));
    assert [] + Front(RecordText(rows[0])) == Front(RecordText(rows[0]));
  }

  /** A scanner between two records. */
  function Clean(done: Table): Scanner {
    Scanner(done, [], "", false)
  }

  lemma ScanRecordAndBreak(rows: Fields, b: Break, more: string, done: Table)
    requires rows != [] && AreRecords(rows)
    requires b == CarriageReturn ==> !StartsWithLineFeed(more)
    ensures Scan(WrittenRecord(rows[0]) + (BreakText(b) + more), Clean(done))
            == Scan(more, Clean(done + [RecordText(rows[0])]))
  {
    hide Scan, WrittenRecord, RecordText, AreRecords;
    ScanFirstRecord(rows, BreakText(b) + more, done);
    ScanBreak(b, more, Pending(done, rows[0]));
  }

  lemma ScanLastRecord(rows: Fields, done: Table)
    requires rows != [] && AreRecords(rows)
    ensures Finish(Scan(WrittenRecord(rows[0]), Clean(done)))
            == Ok(if RecordText(rows[0]) == [""] then done else done + [RecordText(rows[0])])
  {
    hide Scan, WrittenRecord, RecordText, AreRecords;
    ScanFirstRecord(rows, "", done);
    assert WrittenRecord(rows[0]) + "" == WrittenRecord(rows[0]);
    EmptyScan(Pending(done, rows[0]));
    var t := RecordText(rows[0]);
    assert t == [""] <==> Front(t) == [] && Last(t) == "";
  }

  lemma FirstThenRest(done: Table, first: seq<string>, rest: Table)
    ensures (done + [first]) + rest == done + ([first] + rest)
  {
  }

  lemma ScanNothing(done: Table)
    ensures Finish(Scan("", Clean(done))) == Ok(done)
  {
  }

  lemma {:induction false} ScanRecords(rows: Fields, breaks: seq<Break>, done: Table)
    requires Fit(rows, breaks)
    ensures Finish(Scan(WrittenRecords(rows, breaks), Clean(done))) == Ok(done + Seen(rows, breaks))
    decreases |rows|
  {
    hide Scan, WrittenRecord, RecordText, IsRecord, Finish, Clean, StartsWithLineFeed, BreakText;
    if rows == [] {
      ScanNothing(done);
      assert done + [] == done;
    } else if breaks == [] {
      ScanLastRecord(rows, done);
      assert done + [] == done;
    } else {
      var more := WrittenRecords(rows[1..], breaks[1..]);
      var next := done + [RecordText(rows[0])];
      FirstCharacter(rows[1..], breaks[1..]);
      if BlendsAt(rows, breaks, 0) {
        BlendedBreak(rows, breaks);
        ScanRecordAndBreak(rows, Both, WrittenRecords(rows[2..], breaks[2..]), done);
        ScanRecords(rows[2..], breaks[2..], next);
        FirstThenRest(done, RecordText(rows[0]), Seen(rows[2..], breaks[2..]));
      } else {
        ScanRecordAndBreak(rows, breaks[0], more, done);
        ScanRecords(rows[1..], breaks[1..], next);
        FirstThenRest(done, RecordText(rows[0]), Seen(rows[1..], breaks[1..]));
      }
    }
  }

  lemma BlendedBreak(rows: Fields, breaks: seq<Break>)
    requires |breaks| <= |rows| && BlendsAt(rows, breaks, 0)
    ensures BreakText(breaks[0]) + WrittenRecords(rows[1..], breaks[1..])
            == BreakText(Both) + WrittenRecords(rows[2..], breaks[2..])
  {
    var rest := WrittenRecords(rows[2..], breaks[2..]);
    assert rows[1..][1..] == rows[2..] && breaks[1..][1..] == breaks[2..];
    assert WrittenRecord([Bare("")]) == "";
    assert WrittenRecords(rows[1..], breaks[1..]) == "" + ("\n" + rest);
  }

  predicate Unambiguous(rows: Fields, breaks: seq<Break>)
    requires |breaks| <= |rows|
  {
    forall i :: 0 <= i < |breaks| ==> !BlendsAt(rows, breaks, i)
  }

  lemma UnambiguousRest(rows: Fields, breaks: seq<Break>)
    requires breaks != [] && |breaks| <= |rows|
    ensures Unambiguous(rows, breaks) <==> !BlendsAt(rows, breaks, 0) && Unambiguous(rows[1..], breaks[1..])
  {
    forall i | 0 < i < |breaks|
      ensures BlendsAt(rows, breaks, i) <==> BlendsAt(rows[1..], breaks[1..], i - 1)
    {
    }
    hide BlendsAt;
    if !Unambiguous(rows[1..], breaks[1..]) {
      var i :| 0 <= i < |breaks| - 1 && BlendsAt(rows[1..], breaks[1..], i);
      assert BlendsAt(rows, breaks, i + 1);
    }
  }

  /** All records are seen exactly when none blends into a break and the last leaves a trace. */
  lemma {:induction false} SeenIsComplete(rows: Fields, breaks: seq<Break>)
    requires |breaks| <= |rows| <= |breaks| + 1
    ensures |Seen(rows, breaks)| <= |rows|
    ensures Seen(rows, breaks) == Texts(rows) <==> |Seen(rows, breaks)| == |rows|
    ensures Seen(rows, breaks) == Texts(rows) <==> Unambiguous(rows, breaks) && !LeavesNoTrace(rows, breaks)
    decreases |rows|
  {
    hide RecordText;
    if rows != [] && breaks != [] {
      UnambiguousRest(rows, breaks);
      if BlendsAt(rows, breaks, 0) {
        SeenIsComplete(rows[2..], breaks[2..]);
      } else {
        SeenIsComplete(rows[1..], breaks[1..]);
        assert Texts(rows) == [RecordText(rows[0])] + Texts(rows[1..]);
        assert |rows| > 1 ==> Last(rows[1..]) == Last(rows);
      }
    }
  }

  /** Any text of that form is accepted, and reads as its fields exactly when no record blends into a
      line break and the last record leaves a trace. */
  lemma ReadsFieldsExactly(rows: Fields, breaks: seq<Break>)
    requires Fit(rows, breaks)
    ensures Records(WrittenRecords(rows, breaks)).Ok?
    ensures Records(WrittenRecords(rows, breaks)) == Ok(Texts(rows))
            <==> Unambiguous(rows, breaks) && !LeavesNoTrace(rows, breaks)
  {
    hide Scan, Finish, Seen, Texts, Unambiguous, LeavesNoTrace, WrittenRecords;
    ScanRecords(rows, breaks, []);
    SeenIsComplete(rows, breaks);
    assert [] + Seen(rows, breaks) == Seen(rows, breaks);
  }

  // ------------------------------------------------------------------ writer

  /** A cell as the exporter reads it from a row; Missing is a null or undefined value. */
  datatype Cell = TextCell(text: string) | NumberCell(number: int) | Missing

  function CellText(c: Cell): string {
    match c
    case TextCell(text) => text
    case NumberCell(number) => IntText(number)
    case Missing => ""
  }

  predicate IsFormula(text: string) {
    text != "" && text[0] in "=+-@\t\r"
  }

  function Inert(text: string): string {
    if IsFormula(text) then "'" + text else text
  }

  function Escape(text: string): string {
    InQuotes(Inert(text))
  }

  function Line(cells: seq<string>): string {
    Join(Map(Escape, cells), ",")
  }

  function Document(rows: Table): string {
    Join(Map(Line, rows), CRLF)
  }

  /** What a reader should see of a table: every cell made inert. */
  function InertRow(cells: seq<string>): (r: seq<string>)
    ensures |r| == |cells| && forall i :: 0 <= i < |cells| ==> r[i] == Inert(cells[i])
  {
    Map(Inert, cells)
  }

  function Neutralised(rows: Table): Table {
    Map(InertRow, rows)
  }

  /** What a spreadsheet may take for a formula: `=`, `+`, `-`, `@`, a tab or a carriage return in front. */
  predicate StartsAsFormula(text: string) {
    text != ""
    && (text[0] == '=' || text[0] == '+' || text[0] == '-' || text[0] == '@' || text[0] == 9 as char || text[0] == 13 as char)
  }

  /** An exported cell never starts as a formula does; one that would gets an apostrophe in front, and any
      other is left alone. */
  lemma InertCellIsNoFormula(text: string)
    ensures !StartsAsFormula(Inert(text))
    ensures Inert(text) == if StartsAsFormula(text) then "'" + text else text
  {
  }

  /** Exactly which two cells the apostrophe prefix makes indistinguishable. */
  lemma InertCollidesExactlyOnPrefixedFormulas(a: string, b: string)
    ensures Inert(a) == Inert(b)
            <==> a == b || (IsFormula(a) && b == "'" + a) || (IsFormula(b) && a == "'" + b)
  {
    if IsFormula(a) && IsFormula(b) && Inert(a) == Inert(b) {
      assert Inert(a)[1..] == a && Inert(b)[1..] == b;
    }
  }

  // ------------------------------------------------------------------ the reader undoes the writer

  function InertField(text: string): Field {
    Quoted(Inert(text))
  }

  function InertFields(cells: seq<string>): (fields: seq<Field>)
    ensures |fields| == |cells|
  {
    Map(InertField, cells)
  }

  function CrlfBreaks(n: nat): seq<Break> {
    seq(n, i => Both)
  }

  lemma LineIsWritten(cells: seq<string>)
    ensures Line(cells) == WrittenRecord(InertFields(cells))
  {
    assert Map(Escape, cells) == Map(Written, InertFields(cells));
  }

  lemma {:induction false} DocumentIsWritten(rows: Table)
    requires rows != []
    ensures Document(rows) == WrittenRecords(Map(InertFields, rows), CrlfBreaks(|rows| - 1))
    decreases |rows|
  {
    hide Line, WrittenRecord;
    LineIsWritten(rows[0]);
    assert Map(Line, rows)[1..] == Map(Line, rows[1..]);
    if |rows| > 1 {
      DocumentIsWritten(rows[1..]);
      assert Map(InertFields, rows)[1..] == Map(InertFields, rows[1..]);
      assert CrlfBreaks(|rows| - 1)[1..] == CrlfBreaks(|rows| - 2);
    }
  }

  lemma InertFieldsRead(cells: seq<string>)
    ensures RecordText(InertFields(cells)) == InertRow(cells)
  {
  }

  /** A printed table on its own reads back as written unless a row has no cell at all or the last
      row is one empty cell; those are the tables that do not survive, and there are no others. */
  predicate Survives(rows: Table) {
    HaveCells(rows) && (rows != [] ==> Last(rows) != [""])
  }

  lemma TableRoundTripExactly(rows: Table)
    ensures Records(Document(rows)) == Ok(Neutralised(rows)) <==> Survives(rows)
  {
    hide *;
    if rows == [] {
      EmptyTableReadsBack();
    } else if HaveCells(rows) {
      FullTableReadsBack(rows);
    } else {
      EmptyRowIsNotReadBack(rows);
    }
  }

  lemma EmptyTableReadsBack()
    ensures Records(Document([])) == Ok(Neutralised([])) && Survives([])
  {
  }

  lemma EmptyRowIsNotReadBack(rows: Table)
    requires !HaveCells(rows)
    ensures Records(Document(rows)) != Ok(Neutralised(rows)) && !Survives(rows)
  {
    hide Scan;
    var i :| 0 <= i < |rows| && rows[i] == [];
    assert Neutralised(rows)[i] == [];
    if Records(Document(rows)).Ok? {
      RecordsHaveFields(Document(rows));
    }
  }

  lemma FullTableReadsBack(rows: Table)
    requires rows != [] && HaveCells(rows)
    ensures Records(Document(rows)) == Ok(Neutralised(rows)) <==> Survives(rows)
  {
    hide Records, Document, Inert, IsField, WrittenRecords;
    var fields, breaks := Map(InertFields, rows), CrlfBreaks(|rows| - 1);
    DocumentIsWritten(rows);
    InertFieldsAreRecords(rows);
    InertTableReads(rows);
    assert !LeavesNoTrace(fields, breaks) <==> Last(rows) != [""] by {
      LastRowLeavesATrace(rows);
    }
    hide InertFields, LeavesNoTrace;
    ReadsFieldsExactly(fields, breaks);
  }

  lemma InertFieldsAreRecords(rows: Table)
    requires HaveCells(rows)
    ensures AreRecords(Map(InertFields, rows))
  {
  }

  lemma InertTableReads(rows: Table)
    ensures Texts(Map(InertFields, rows)) == Neutralised(rows)
  {
    forall i | 0 <= i < |rows|
      ensures Texts(Map(InertFields, rows))[i] == Neutralised(rows)[i]
    {
      InertFieldsRead(rows[i]);
    }
  }

  lemma LastRowLeavesATrace(rows: Table)
    requires rows != [] && HaveCells(rows)
    ensures RecordText(Last(Map(InertFields, rows))) == [""] <==> Last(rows) == [""]
  {
    hide RecordText, Inert, InertFields;
    var last := Last(rows);
    InertFieldsRead(last);
    OnlyEmptyCellsLookEmpty(last[0]);
    assert InertRow(last)[0] == Inert(last[0]);
  }

  lemma OnlyEmptyCellsLookEmpty(text: string)
    ensures Inert(text) == "" <==> text == ""
  {
  }

  // ------------------------------------------------------------------ the exported statement

  datatype ExportRow = ExportRow(
    localDate: string, entryType: string, payee: Option<string>, note: Option<string>,
    amountMinor: int, currency: string, status: string, source: string)

  const HEADER: seq<string> :=
    ["date", "type", "payee", "note", "amount_minor", "currency", "status", "source"]

  function Nullable(v: Option<string>): Cell {
    if v.Some? then TextCell(v.value) else Missing
  }

  function Cells(row: ExportRow): (cells: seq<string>)
    ensures |cells| == 8
  {
    Map(CellText, [TextCell(row.localDate), TextCell(row.entryType), Nullable(row.payee), Nullable(row.note),
                   NumberCell(row.amountMinor), TextCell(row.currency), TextCell(row.status), TextCell(row.source)])
  }

  function OrEmpty(v: Option<string>): string {
    match v
    case Some(text) => text
    case None => ""
  }

  /** Each column holds what its heading says: the header has eight different headings, and every row has the
      value of a heading at the heading's position. */
  lemma CellsStandUnderTheirHeadings(row: ExportRow, i: nat)
    requires i < 8
    ensures |HEADER| == 8 && Distinct(HEADER)
    ensures HEADER[i] in {"date", "type", "payee", "note", "amount_minor", "currency", "status", "source"}
    ensures HEADER[i] == "date" ==> Cells(row)[i] == row.localDate
    ensures HEADER[i] == "type" ==> Cells(row)[i] == row.entryType
    ensures HEADER[i] == "payee" ==> Cells(row)[i] == OrEmpty(row.payee)
    ensures HEADER[i] == "note" ==> Cells(row)[i] == OrEmpty(row.note)
    ensures HEADER[i] == "amount_minor" ==> Cells(row)[i] == IntText(row.amountMinor)
    ensures HEADER[i] == "currency" ==> Cells(row)[i] == row.currency
    ensures HEADER[i] == "status" ==> Cells(row)[i] == row.status
    ensures HEADER[i] == "source" ==> Cells(row)[i] == row.source
  {
    HeadingsDiffer();
    hide IntText;
  }

  /** Eight headings with different lengths or first letters. */
  lemma HeadingsDiffer()
    ensures |HEADER| == 8 && Distinct(HEADER)
  {
    assert forall i :: 0 <= i < 8 ==> |HEADER[i]| > 0;
    assert HEADER[0][0] == 'd' && HEADER[1][0] == 't' && HEADER[2][0] == 'p' && HEADER[3][0] == 'n';
    assert HEADER[4][0] == 'a' && HEADER[5][0] == 'c' && HEADER[6][1] == 't' && HEADER[7][1] == 'o';
    assert HEADER[6][0] == 's' && HEADER[7][0] == 's';
  }

  /** The exporter's whole CSV text: a bare header line and one quoted line per entry. */
  function WorkspaceCsv(rows: seq<ExportRow>): string {
    Join([Join(HEADER, ",")] + Map(row => Line(Cells(row)), rows), CRLF)
  }

  function BareField(text: string): Field {
    Bare(text)
  }

  /** The statement as records of fields: a bare header and quoted cells. */
  function StatementFields(rows: seq<ExportRow>): (fields: Fields)
    ensures |fields| == |rows| + 1
  {
    [Map(BareField, HEADER)] + Map(InertFields, Map(Cells, rows))
  }

  lemma HeaderIsPlain()
    ensures forall i :: 0 <= i < |HEADER| ==> Plain(HEADER[i])
  {
  }

  lemma WorkspaceCsvSplits(rows: seq<ExportRow>)
    requires rows != []
    ensures WorkspaceCsv(rows) == Join(HEADER, ",") + (CRLF + Document(Map(Cells, rows)))
  {
    hide Line;
    var head := Join(HEADER, ",");
    var lines := Map(row => Line(Cells(row)), rows);
    assert lines == Map(Line, Map(Cells, rows));
    assert ([head] + lines)[1..] == lines;
  }

  lemma EmptyStatement()
    ensures WorkspaceCsv([]) == Join(HEADER, ",")
  {
  }

  lemma HeaderIsWritten()
    ensures WrittenRecord(Map(BareField, HEADER)) == Join(HEADER, ",")
  {
    assert Map(Written, Map(BareField, HEADER)) == HEADER;
  }

  lemma WorkspaceCsvIsWritten(rows: seq<ExportRow>)
    ensures WorkspaceCsv(rows) == WrittenRecords(StatementFields(rows), CrlfBreaks(|rows|))
  {
    HeaderIsWritten();
    hide InertFields, CrlfBreaks, HEADER, Cells, WrittenRecord, Document, WorkspaceCsv, Join;
    var fields := StatementFields(rows);
    if rows == [] {
      EmptyStatement();
      assert CrlfBreaks(0) == [] by { NoBreaks(); }
    } else {
      WorkspaceCsvSplits(rows);
      DocumentIsWritten(Map(Cells, rows));
      assert fields[1..] == Map(InertFields, Map(Cells, rows));
      OneBreakLess(|rows|);
    }
  }

  lemma NoBreaks()
    ensures CrlfBreaks(0) == []
  {
  }

  lemma OneBreakLess(n: nat)
    requires n > 0
    ensures CrlfBreaks(n) != [] && CrlfBreaks(n)[0] == Both && CrlfBreaks(n)[1..] == CrlfBreaks(n - 1)
  {
  }

  lemma StatementReads(rows: seq<ExportRow>)
    ensures AreRecords(StatementFields(rows))
    ensures Texts(StatementFields(rows)) == [HEADER] + Neutralised(Map(Cells, rows))
    ensures RecordText(Last(StatementFields(rows))) != [""]
  {
    HeaderIsPlain();
    hide Cells, Inert;
    var table := Map(Cells, rows);
    InertFieldsAreRecords(table);
    InertTableReads(table);
    assert RecordText(Map(BareField, HEADER)) == HEADER;
  }

  /** Every exported statement reads back as the header and exactly the neutralised cells. */
  lemma WorkspaceCsvRoundTrip(rows: seq<ExportRow>)
    ensures Records(WorkspaceCsv(rows)) == Ok([HEADER] + Neutralised(Map(Cells, rows)))
  {
    WorkspaceCsvIsWritten(rows);
    StatementReads(rows);
    hide Records, WorkspaceCsv, StatementFields, Texts, HEADER, Neutralised, AreRecords, WrittenRecords;
    ReadsFieldsExactly(StatementFields(rows), CrlfBreaks(|rows|));
  }

  /** Two exports are the same text only when every cell agrees up to the apostrophe prefix. */
  lemma WorkspaceCsvDeterminesCells(a: seq<ExportRow>, b: seq<ExportRow>)
    requires WorkspaceCsv(a) == WorkspaceCsv(b)
    ensures |a| == |b|
    ensures forall i, k :: 0 <= i < |a| && 0 <= k < 8 ==> Inert(Cells(a[i])[k]) == Inert(Cells(b[i])[k])
  {
    hide Records, WorkspaceCsv, Inert, Cells, InertRow;
    WorkspaceCsvRoundTrip(a);
    WorkspaceCsvRoundTrip(b);
    var ta, tb := Neutralised(Map(Cells, a)), Neutralised(Map(Cells, b));
    assert ([HEADER] + ta)[1..] == ta && ([HEADER] + tb)[1..] == tb;
    forall i, k | 0 <= i < |a| && 0 <= k < 8
      ensures Inert(Cells(a[i])[k]) == Inert(Cells(b[i])[k])
    {
      assert ta[i] == InertRow(Cells(a[i])) && tb[i] == InertRow(Cells(b[i]));
    }
  }
}
