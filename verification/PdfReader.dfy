/** A small PDF reader, written from ISO 32000-1 and knowing nothing of how the writer computes its
    numbers: it starts at the end of the file, follows `startxref`, the cross-reference table and
    the indirect references, and follows the text operators of each page. Reading back what the writer
    wrote gives the folded, truncated lines one below the other, so every offset, id, length and operator in
    the file is right. */
module PdfReader {
  import opened Common
  import opened Sequences
  import opened Decimal
  import opened PdfWriter

  // ------------------------------------------------------------------ tokens

  function DigitRun(s: string): (n: nat)
    ensures n <= |s| && AllDigits(s[..n])
  {
    if s == "" || !IsDigit(s[0]) then 0
    else
      assert s[..1 + DigitRun(s[1..])] == [s[0]] + s[1..][..DigitRun(s[1..])];
      1 + DigitRun(s[1..])
  }

  function ReadNumber(s: string): Option<(nat, string)> {
    var n := DigitRun(s);
    if n == 0 then None else Some((Value(s[..n]), s[n..]))
  }

  function Expect(s: string, literal: string): Option<string> {
    if literal <= s then Some(s[|literal|..]) else None
  }

  // ------------------------------------------------------------------ cross-reference table

  /** Start of the run of digits that ends at position end. */
  function DigitsBefore(s: string, end: nat): (start: nat)
    requires end <= |s|
    ensures start <= end && AllDigits(s[start..end])
  {
    if end == 0 || !IsDigit(s[end - 1]) then end
    else
      var start := DigitsBefore(s, end - 1);
      assert s[start..end] == s[start..end - 1] + [s[end - 1]];
      start
  }

  /** The number between `startxref` and `%%EOF` at the end of the file. */
  function StartXref(doc: string): Option<nat> {
    var tail := "\n%%EOF";
    var keyword := "startxref\n";
    if |doc| < |tail| || doc[|doc| - |tail|..] != tail then None
    else
      var end := |doc| - |tail|;
      var start := DigitsBefore(doc, end);
      if start == end || start < |keyword| || doc[start - |keyword|..start] != keyword then None
      else Some(Value(doc[start..end]))
  }

  /** The table after its subsection header, and the number of entries it announces. */
  function XrefTable(doc: string): Option<(nat, string)> {
    var at :- StartXref(doc);
    if at > |doc| then None
    else
      var s :- Expect(doc[at..], "xref\n0 ");
      var (size, s) :- ReadNumber(s);
      var s :- Expect(s, "\n");
      Some((size, s))
  }

  /** Section 7.5.4: each entry is exactly 20 bytes, so entry k is found by multiplication. */
  function Locate(doc: string, k: nat): Option<nat> {
    var (size, table) :- XrefTable(doc);
    if k >= size || |table| < 20 * (k + 1) then None
    else
      var entry := table[20 * k..20 * (k + 1)];
      if AllDigits(entry[..10]) && entry[10..] == " 00000 n \n" then Some(Value(entry[..10])) else None
  }

  /** The text that follows `k 0 obj` at the place the table gives for object k. */
  function Open(doc: string, k: nat): Option<string> {
    var at :- Locate(doc, k);
    if at > |doc| then None
    else
      var (number, s) :- ReadNumber(doc[at..]);
      if number != k then None else Expect(s, " 0 obj\n")
  }

  // ------------------------------------------------------------------ objects

  function ReadReference(s: string): Option<(nat, string)> {
    var (id, s) :- ReadNumber(s);
    var s :- Expect(s, " 0 R");
    Some((id, s))
  }

  function ReadReferences(s: string): (r: Option<(seq<nat>, string)>)
    ensures r.Some? ==> |r.value.1| < |s|
    decreases |s|
  {
    if s == "" then None
    else if s[0] == ']' then Some(([], s[1..]))
    else if s[0] == ' ' then ReadReferences(s[1..])
    else
      var (id, rest) :- ReadReference(s);
      if |rest| >= |s| then None
      else
        var (ids, end) :- ReadReferences(rest);
        Some(([id] + ids, end))
  }

  /** Section 7.5.5: behind the table, the trailer states its size again and names the catalog. */
  function TrailerRoot(doc: string): Option<nat> {
    var (size, table) :- XrefTable(doc);
    if |table| < 20 * size then None
    else
      var s :- Expect(table[20 * size..], "trailer\n<< /Size ");
      var (again, s) :- ReadNumber(s);
      var s :- Expect(s, " /Root ");
      var (root, s) :- ReadReference(s);
      if again == size && " >>\nstartxref\n" <= s then Some(root) else None
  }

  function ReadCatalog(doc: string): Option<nat> {
    var root :- TrailerRoot(doc);
    var s :- Open(doc, root);
    var s :- Expect(s, "<< /Type /Catalog /Pages ");
    var (id, s) :- ReadReference(s);
    Some(id)
  }

  function ReadKids(doc: string, id: nat): Option<seq<nat>> {
    var s :- Open(doc, id);
    var s :- Expect(s, "<< /Type /Pages /Kids [");
    var (ids, s) :- ReadReferences(s);
    var s :- Expect(s, " /Count ");
    var (count, s) :- ReadNumber(s);
    if count != |ids| then None else Some(ids)
  }

  datatype PageEntry = PageEntry(parent: nat, font: nat, contents: nat)

  function ReadPageEntry(doc: string, id: nat): Option<PageEntry> {
    var s :- Open(doc, id);
    var s :- Expect(s, "<< /Type /Page /Parent ");
    var (parent, s) :- ReadReference(s);
    var s :- Expect(s, " /MediaBox [0 0 612 792]");
    var s :- Expect(s, " /Resources << /Font << /F1 ");
    var (font, s) :- ReadReference(s);
    var s :- Expect(s, " >> >> /Contents ");
    var (contents, s) :- ReadReference(s);
    Some(PageEntry(parent, font, contents))
  }

  predicate IsFont(doc: string, id: nat) {
    var text := Open(doc, id);
    text.Some? && "<< /Type /Font" <= text.value
  }

  /** A stream is the /Length bytes after its keyword, and nothing else may precede `endstream`. */
  function ReadStream(doc: string, id: nat): Option<string> {
    var s :- Open(doc, id);
    var s :- Expect(s, "<< /Length ");
    var (length, s) :- ReadNumber(s);
    var s :- Expect(s, " >>\nstream\n");
    if length > |s| then None
    else
      var _ :- Expect(s[length..], "\nendstream");
      Some(s[..length])
  }

  // ------------------------------------------------------------------ literal strings

  /** Section 7.3.4.2: a backslash escapes, and unescaped parentheses must balance. Octal escapes
      and line continuations are refused: no file of this writer holds one. */
  function ReadLiteral(s: string, depth: nat): (r: Option<(string, string)>)
    ensures r.Some? ==> |r.value.1| < |s|
    decreases |s|
  {
    if s == "" then None
    else if s[0] == '\\' then
      if |s| == 1 || IsDigit(s[1]) || s[1] == '\n' || s[1] == '\r' then None
      else
        var (text, rest) :- ReadLiteral(s[2..], depth);
        Some(([Unescape(s[1])] + text, rest))
    else if s[0] == ')' && depth == 0 then Some(("", s[1..]))
    else
      var depth' := if s[0] == '(' then depth + 1 else if s[0] == ')' then depth - 1 else depth;
      var (text, rest) :- ReadLiteral(s[1..], depth');
      Some(([s[0]] + text, rest))
  }

  function Unescape(c: char): char {
    match c
    case 'n' => '\n'
    case 'r' => '\r'
    case 't' => '\t'
    case 'b' => 8 as char
    case 'f' => 12 as char
    case _ => c
  }

  // ------------------------------------------------------------------ text operators

  /** The text state of section 9.3 and the start of the current line: font and size, leading, position, how
      many strings the line shows already, and the operands that wait for their operator. */
  datatype TextState = TextState(
    font: string, size: nat, leading: nat, x: int, y: int, shown: nat, name: string, operands: seq<nat>)

  const START: TextState := TextState("", 0, 0, 0, 0, 0, "", [])

  /** A string as it is shown: the start of its line, its place in that line, and how. */
  datatype Placed = Placed(x: int, y: int, place: nat, font: string, size: nat, text: string)

  const SHOW_OPERATOR: string := " Tj"

  /** Sections 9.3 and 9.4: `Td` starts a line at an offset from the last one, `T*` starts one by the leading
      below it. Operators that this writer does not use are refused. */
  function Operate(op: string, t: TextState): Option<TextState> {
    var done := t.(name := "", operands := []);
    if op == "BT" && t.operands == [] then Some(done.(x := 0, y := 0, shown := 0))
    else if op == "ET" && t.operands == [] then Some(done)
    else if op == "Tf" && |t.operands| == 1 && t.name != "" then Some(done.(font := t.name, size := t.operands[0]))
    else if op == "Td" && |t.operands| == 2 then
      Some(done.(x := t.x + t.operands[0], y := t.y + t.operands[1], shown := 0))
    else if op == "TL" && |t.operands| == 1 then Some(done.(leading := t.operands[0]))
    else if op == "T*" && t.operands == [] then Some(done.(y := t.y - t.leading, shown := 0))
    else None
  }

  /** Where the word at the start of s ends. */
  function WordEnd(s: string): (n: nat)
    requires s != ""
    ensures 1 <= n <= |s|
  {
    if |s| == 1 || s[1] == ' ' then 1 else 1 + WordEnd(s[1..])
  }

  /** The rest of a literal string, which must be the operand of a `Tj`. */
  function ReadShow(s: string): (r: Option<(string, string)>)
    ensures r.Some? ==> |r.value.1| < |s|
  {
    var (text, rest) :- ReadLiteral(s, 0);
    var rest :- Expect(rest, SHOW_OPERATOR);
    Some((text, rest))
  }

  /** One string, operand or operator: what it shows, what follows it, and the state behind it. */
  function ReadToken(s: string, t: TextState): (r: Option<(seq<Placed>, string, TextState)>)
    requires s != ""
    ensures r.Some? ==> |r.value.1| < |s|
  {
    if s[0] == ' ' then Some(([], s[1..], t))
    else if s[0] == '(' then
      var (text, rest) :- ReadShow(s[1..]);
      Some(([Placed(t.x, t.y, t.shown, t.font, t.size, text)], rest, t.(shown := t.shown + 1)))
    else
      var n := WordEnd(s);
      if IsDigit(s[0]) then
        (if AllDigits(s[..n]) then Some(([], s[n..], t.(operands := t.operands + [Value(s[..n])]))) else None)
      else if s[0] == '/' then Some(([], s[n..], t.(name := s[1..n])))
      else
        var next :- Operate(s[..n], t);
        Some(([], s[n..], next))
  }

  /** The strings a content stream shows, in order, each with its place on the page. */
  function ReadContent(s: string, t: TextState): Option<seq<Placed>>
    decreases |s|
  {
    if s == "" then Some([])
    else
      var (placed, rest, next) :- ReadToken(s, t);
      var more :- ReadContent(rest, next);
      Some(placed + more)
  }

  // ------------------------------------------------------------------ whole documents

  /** A page must name the tree that lists it as its parent and a font object as its font. */
  function ReadPage(doc: string, tree: nat, id: nat): Option<seq<Placed>> {
    var page :- ReadPageEntry(doc, id);
    if page.parent != tree || !IsFont(doc, page.font) then None
    else
      var stream :- ReadStream(doc, page.contents);
      ReadContent(stream, START)
  }

  function ReadPages(doc: string, tree: nat, ids: seq<nat>): Option<seq<seq<Placed>>> {
    if ids == [] then Some([])
    else
      var page :- ReadPage(doc, tree, ids[0]);
      var more :- ReadPages(doc, tree, ids[1..]);
      Some([page] + more)
  }

  /** Every in-use entry the table announces is where a 20-byte table has it. */
  predicate TableIsRegular(doc: string) {
    var table := XrefTable(doc);
    table.Some? && forall k :: 1 <= k < table.value.0 ==> Locate(doc, k).Some?
  }

  function ReadDocument(doc: string): Option<seq<seq<Placed>>> {
    if !("%PDF-1." <= doc) || !TableIsRegular(doc) then None else ReadFromCatalog(doc)
  }

  function ReadFromCatalog(doc: string): Option<seq<seq<Placed>>> {
    var tree :- ReadCatalog(doc);
    var ids :- ReadKids(doc, tree);
    ReadPages(doc, tree, ids)
  }

  // ------------------------------------------------------------------ reading tokens back

  lemma {:induction false} DigitRunOf(digits: string, rest: string)
    requires AllDigits(digits) && (rest == "" || !IsDigit(rest[0]))
    ensures DigitRun(digits + rest) == |digits|
    decreases |digits|
  {
    if digits == "" {
      assert digits + rest == rest;
    } else {
      assert (digits + rest)[1..] == digits[1..] + rest;
      DigitRunOf(digits[1..], rest);
    }
  }

  lemma ReadNumberOf(n: nat, rest: string)
    requires rest == "" || !IsDigit(rest[0])
    ensures ReadNumber(Text(n) + rest) == Some((n, rest))
  {
    TextDenotes(n);
    DigitRunOf(Text(n), rest);
    assert (Text(n) + rest)[..|Text(n)|] == Text(n);
  }

  lemma ExpectOf(literal: string, rest: string)
    ensures Expect(literal + rest, literal) == Some(rest)
  {
  }

  lemma ReadReferenceOf(id: nat, rest: string)
    ensures ReadReference(Reference(id) + rest) == Some((id, rest))
  {
    hide ReadNumber, Expect;
    var tail := " 0 R";
    assert Reference(id) + rest == Text(id) + (tail + rest);
    ReadNumberOf(id, tail + rest);
    ExpectOf(tail, rest);
  }

  // ------------------------------------------------------------------ reading strings back

  /** What one source unit becomes in a literal string. */
  function EscapeUnit(u: CodeUnit): string {
    if u == 0x5C || u == 0x28 || u == 0x29 then ['\\', u as char] else [FoldUnit(u)]
  }

  function EscapeEach(s: SourceLine): string {
    if s == [] then "" else EscapeUnit(s[0]) + EscapeEach(s[1..])
  }

  lemma {:induction false} FoldAppend(a: SourceLine, b: SourceLine)
    ensures Fold(a + b) == Fold(a) + Fold(b)
  {
  }

  lemma {:induction false} ReplaceAppend(a: SourceLine, b: SourceLine, target: CodeUnit, replacement: SourceLine)
    ensures ReplaceAll(a + b, target, replacement)
            == ReplaceAll(a, target, replacement) + ReplaceAll(b, target, replacement)
  {
    if a == [] {
      assert a + b == b;
    } else {
      assert (a + b)[1..] == a[1..] + b;
      ReplaceAppend(a[1..], b, target, replacement);
    }
  }

  lemma ReplaceOne(u: CodeUnit, target: CodeUnit, replacement: SourceLine)
    ensures ReplaceAll([u], target, replacement) == if u == target then replacement else [u]
  {
  }

  lemma ReplaceTwo(u: CodeUnit, v: CodeUnit, target: CodeUnit, replacement: SourceLine)
    requires u != target && v != target
    ensures ReplaceAll([u, v], target, replacement) == [u, v]
  {
    assert [u, v][1..] == [v];
    ReplaceOne(v, target, replacement);
  }

  lemma EscapeOne(u: CodeUnit)
    ensures Escape([u]) == EscapeUnit(u)
  {
    hide ReplaceAll;
    ReplaceOne(u, 0x5C, [0x5C, 0x5C]);
    ReplaceOne(u, 0x28, [0x5C, 0x28]);
    ReplaceOne(u, 0x29, [0x5C, 0x29]);
    if u == 0x5C {
      ReplaceTwo(0x5C, 0x5C, 0x28, [0x5C, 0x28]);
      ReplaceTwo(0x5C, 0x5C, 0x29, [0x5C, 0x29]);
    } else if u == 0x28 {
      ReplaceTwo(0x5C, 0x28, 0x29, [0x5C, 0x29]);
    }
  }

  lemma EscapeAppend(a: SourceLine, b: SourceLine)
    ensures Escape(a + b) == Escape(a) + Escape(b)
  {
    hide ReplaceAll, Fold;
    var a1, b1 := ReplaceAll(a, 0x5C, [0x5C, 0x5C]), ReplaceAll(b, 0x5C, [0x5C, 0x5C]);
    var a2, b2 := ReplaceAll(a1, 0x28, [0x5C, 0x28]), ReplaceAll(b1, 0x28, [0x5C, 0x28]);
    var a3, b3 := ReplaceAll(a2, 0x29, [0x5C, 0x29]), ReplaceAll(b2, 0x29, [0x5C, 0x29]);
    ReplaceAppend(a, b, 0x5C, [0x5C, 0x5C]);
    ReplaceAppend(a1, b1, 0x28, [0x5C, 0x28]);
    ReplaceAppend(a2, b2, 0x29, [0x5C, 0x29]);
    FoldAppend(a3, b3);
  }

  /** The four replacements, one after the other, amount to escaping each unit on its own. */
  lemma {:induction false} EscapeIsUnitwise(s: SourceLine)
    ensures Escape(s) == EscapeEach(s)
  {
    if s != [] {
      hide Escape, EscapeUnit;
      assert s == [s[0]] + s[1..];
      EscapeAppend([s[0]], s[1..]);
      EscapeOne(s[0]);
      EscapeIsUnitwise(s[1..]);
    }
  }

  lemma ReadEscapedUnit(u: CodeUnit, tail: string)
    requires ReadLiteral(tail, 0).Some?
    ensures ReadLiteral(EscapeUnit(u) + tail, 0)
            == Some(([FoldUnit(u)] + ReadLiteral(tail, 0).value.0, ReadLiteral(tail, 0).value.1))
  {
    var s := EscapeUnit(u) + tail;
    assert s[|EscapeUnit(u)|..] == tail;
  }

  lemma {:induction false} ReadLiteralOf(line: SourceLine, rest: string)
    ensures ReadLiteral(EscapeEach(line) + ")" + rest, 0) == Some((Fold(line), rest))
  {
    var s := EscapeEach(line) + ")" + rest;
    if line == [] {
      assert s == ")" + rest && s[1..] == rest;
    } else {
      var u := line[0];
      var tail := EscapeEach(line[1..]) + ")" + rest;
      ReadLiteralOf(line[1..], rest);
      assert s == EscapeUnit(u) + tail;
      ReadEscapedUnit(u, tail);
      assert Fold(line) == [FoldUnit(u)] + Fold(line[1..]);
    }
  }

  /** A literal string reads back as the line with every non-printable unit folded to '?'. */
  lemma EscapeRoundTrip(line: SourceLine, rest: string)
    ensures ReadLiteral(Escape(line) + ")" + rest, 0) == Some((Fold(line), rest))
  {
    EscapeIsUnitwise(line);
    ReadLiteralOf(line, rest);
  }
}
