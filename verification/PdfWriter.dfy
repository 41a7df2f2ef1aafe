/** The dependency-free PDF writer of apps/api/src/imports/workspace-export.service.ts. Every
    character it writes is ASCII, so a position in the text is a byte offset. */
module PdfWriter {
  import opened Common
  import opened Sequences
  import opened Decimal

  type SourceLine = seq<CodeUnit>

  const LINES_PER_PAGE: nat := 48
  const LINE_LIMIT: nat := 95

  // ------------------------------------------------------------------ escaping

  function ReplaceAll(s: SourceLine, target: CodeUnit, replacement: SourceLine): SourceLine {
    if s == [] then []
    else (if s[0] == target then replacement else [s[0]]) + ReplaceAll(s[1..], target, replacement)
  }

  predicate IsPrintable(u: CodeUnit) {
    0x20 <= u <= 0x7E
  }

  function FoldUnit(u: CodeUnit): (c: char)
    ensures ' ' <= c <= '~'
  {
    if IsPrintable(u) then u as char else '?'
  }

  function Fold(s: SourceLine): string {
    Map(FoldUnit, s)
  }

  /** Backslash first, then the parentheses, then everything that is not printable ASCII. */
  function Escape(s: SourceLine): string {
    Fold(ReplaceAll(ReplaceAll(ReplaceAll(s, 0x5C, [0x5C, 0x5C]), 0x28, [0x5C, 0x28]), 0x29, [0x5C, 0x29]))
  }

  function Truncate(line: SourceLine): SourceLine {
    if |line| <= LINE_LIMIT then line else line[..LINE_LIMIT]
  }

  // ------------------------------------------------------------------ objects

  function PageCut(lines: seq<SourceLine>): nat {
    Min(LINES_PER_PAGE, |lines|)
  }

  function Pages(lines: seq<SourceLine>): seq<seq<SourceLine>> {
    if lines == [] then [] else [lines[..PageCut(lines)]] + Pages(lines[PageCut(lines)..])
  }

  function Show(line: SourceLine, first: bool): string {
    (if first then "" else "T* ") + "(" + Escape(Truncate(line)) + ") Tj"
  }

  function Shows(page: seq<SourceLine>): seq<string> {
    seq(|page|, i requires 0 <= i < |page| => Show(page[i], i == 0))
  }

  const PRELUDE: string := "BT /F1 9 Tf " + "42 750 Td 12 TL "

  function Stream(page: seq<SourceLine>): string {
    PRELUDE + Join(Shows(page), " ") + " ET"
  }

  const HEADER: string := "%PDF-1.4\n"
  const CATALOG: string := "<< /Type /Catalog /Pages 2 0 R >>"
  const PAGE_HEAD: string :=
    "<< /Type /Page /Parent 2 0 R" + " /MediaBox [0 0 612 792]" + " /Resources << /Font << /F1 3 0 R" + " >> >> /Contents "
  const FONT: string := "<< /Type /Font" + " /Subtype /Type1 /BaseFont /Courier >>"

  function Reference(id: nat): string {
    Text(id) + " 0 R"
  }

  function PageTree(ids: seq<nat>): string {
    "<< /Type /Pages /Kids [" + Join(Map(Reference, ids), " ") + ("]" + " /Count ") + Text(|ids|) + " >>"
  }

  function PageObject(contentId: nat): string {
    PAGE_HEAD + Reference(contentId) + " >>"
  }

  function ContentObject(stream: string): string {
    "<< /Length " + Text(|stream|) + " >>\nstream\n" + stream + "\nendstream"
  }

  function PageIds(n: nat): (ids: seq<nat>)
    ensures |ids| == n
  {
    seq(n, i => 4 + i * 2)
  }

  function ObjectCount(pages: seq<seq<SourceLine>>): nat {
    3 + 2 * |pages|
  }

  /** The body of indirect object k. */
  function ObjectText(pages: seq<seq<SourceLine>>, k: nat): string
    requires 1 <= k <= ObjectCount(pages)
  {
    if k == 1 then CATALOG
    else if k == 2 then PageTree(PageIds(|pages|))
    else if k == 3 then FONT
    else if k % 2 == 0 then PageObject(k + 1)
    else ContentObject(Stream(pages[(k - 5) / 2]))
  }

  function Objects(pages: seq<seq<SourceLine>>): (objects: seq<string>)
    ensures |objects| == ObjectCount(pages)
  {
    seq(ObjectCount(pages), i requires 0 <= i < ObjectCount(pages) => ObjectText(pages, i + 1))
  }

  // ------------------------------------------------------------------ layout

  function Wrapped(k: nat, text: string): string {
    Text(k) + " 0 obj\n" + text + "\nendobj\n"
  }

  /** The file up to and including object k. */
  function Body(objects: seq<string>, k: nat): string
    requires k <= |objects|
  {
    if k == 0 then HEADER else Body(objects, k - 1) + Wrapped(k, objects[k - 1])
  }

  /** The byte offset at which object k starts. */
  function Offset(objects: seq<string>, k: nat): nat
    requires 1 <= k <= |objects|
  {
    |Body(objects, k - 1)|
  }

  function Entry(offset: nat): string {
    PadStart(Text(offset), 10) + " 00000 n "
  }

  function Entries(objects: seq<string>): (entries: seq<string>)
    ensures |entries| == |objects|
  {
    seq(|objects|, i requires 0 <= i < |objects| => Entry(Offset(objects, i + 1)))
  }

  /** The section keyword, the subsection header and the free entry of object 0. */
  function XrefHead(size: nat): string {
    "xref\n0 " + Text(size) + "\n0000000000 65535 f \n"
  }

  function XrefSection(objects: seq<string>): string {
    XrefHead(|objects| + 1) + Join(Entries(objects), "\n")
  }

  function TrailerHead(size: nat): string {
    "\ntrailer\n<< /Size " + Text(size) + " /Root 1 0 R >>\nstartxref\n"
  }

  function Trailer(objects: seq<string>): string {
    TrailerHead(|objects| + 1) + Text(|Body(objects, |objects|)|) + "\n%%EOF"
  }

  function File(objects: seq<string>): string {
    Body(objects, |objects|) + XrefSection(objects) + Trailer(objects)
  }

  function Pdf(lines: seq<SourceLine>): string {
    File(Objects(Pages(lines)))
  }

  // ------------------------------------------------------------------ the writer

  lemma {:induction false} PagesSnoc(lines: seq<SourceLine>, offset: nat, done: seq<seq<SourceLine>>)
    requires offset < |lines|
    requires done + Pages(lines[offset..]) == Pages(lines)
    ensures done + [lines[offset..Min(offset + LINES_PER_PAGE, |lines|)]]
            + Pages(lines[Min(offset + LINES_PER_PAGE, |lines|)..]) == Pages(lines)
  {
    var rest := lines[offset..];
    var cut := PageCut(rest);
    assert offset + cut == Min(offset + LINES_PER_PAGE, |lines|);
    assert rest[..cut] == lines[offset..offset + cut];
    assert rest[cut..] == lines[offset + cut..];
    assert done + [rest[..cut]] + Pages(rest[cut..]) == done + Pages(rest);
  }

  method CutPages(lines: seq<SourceLine>) returns (pages: seq<seq<SourceLine>>)
    ensures pages == Pages(lines)
  {
    pages := [];
    var offset := 0;
    while offset < |lines|
      invariant 0 <= offset
      invariant offset <= |lines| ==> pages + Pages(lines[offset..]) == Pages(lines)
      invariant offset > |lines| ==> pages == Pages(lines)
    {
      PagesSnoc(lines, offset, pages);
      pages := pages + [lines[offset..Min(offset + LINES_PER_PAGE, |lines|)]];
      offset := offset + LINES_PER_PAGE;
      if offset > |lines| {
        assert lines[|lines|..] == [];
      }
    }
    if offset == |lines| {
      assert lines[offset..] == [];
    }
  }

  method BuildObjects(pages: seq<seq<SourceLine>>) returns (objects: seq<string>)
    ensures objects == Objects(pages)
  {
    hide PageTree, PageObject, ContentObject, Stream, CATALOG, FONT;
    objects := [CATALOG];
    objects := objects + [PageTree(PageIds(|pages|))];
    objects := objects + [FONT];
    var index := 0;
    while index < |pages|
      invariant 0 <= index <= |pages|
      invariant |objects| == 3 + 2 * index
      invariant forall i :: 0 <= i < |objects| ==> objects[i] == ObjectText(pages, i + 1)
    {
      var pageId := 4 + index * 2;
      var contentId := pageId + 1;
      objects := objects + [PageObject(contentId)];
      objects := objects + [ContentObject(Stream(pages[index]))];
      index := index + 1;
    }
    assert objects == Objects(pages);
  }

  method LayOut(objects: seq<string>) returns (pdf: string, offsets: seq<nat>)
    ensures pdf == Body(objects, |objects|)
    ensures |offsets| == |objects| + 1
    ensures forall k :: 1 <= k <= |objects| ==> offsets[k] == Offset(objects, k)
  {
    hide Wrapped;
    pdf := HEADER;
    offsets := [0];
    var index := 0;
    while index < |objects|
      invariant 0 <= index <= |objects|
      invariant pdf == Body(objects, index)
      invariant |offsets| == index + 1
      invariant forall k :: 1 <= k <= index ==> offsets[k] == Offset(objects, k)
    {
      offsets := offsets + [|pdf|];
      pdf := pdf + Wrapped(index + 1, objects[index]);
      index := index + 1;
    }
  }

  method BasicPdf(lines: seq<SourceLine>) returns (pdf: string)
    ensures pdf == Pdf(lines)
  {
    hide Body, ObjectText, Entry, XrefHead, TrailerHead, Join;
    var pages := CutPages(lines);
    var objects := BuildObjects(pages);
    var offsets;
    pdf, offsets := LayOut(objects);
    var xref := |pdf|;
    var rows := Map(Entry, offsets[1..]);
    assert rows == Entries(objects);
    pdf := pdf + (XrefHead(|objects| + 1) + Join(rows, "\n")) + (TrailerHead(|objects| + 1) + Text(xref) + "\n%%EOF");
  }

  /** Paging neither loses, repeats nor reorders a line, and no page is empty or too long. */
  lemma {:induction false} PagesPartitionTheLines(lines: seq<SourceLine>)
    ensures Flatten(Pages(lines)) == lines
    ensures forall i :: 0 <= i < |Pages(lines)| ==> 1 <= |Pages(lines)[i]| <= LINES_PER_PAGE
    ensures forall i :: 0 <= i < |Pages(lines)| - 1 ==> |Pages(lines)[i]| == LINES_PER_PAGE
    decreases |lines|
  {
    if lines != [] {
      var cut := PageCut(lines);
      PagesPartitionTheLines(lines[cut..]);
      assert lines[..cut] + lines[cut..] == lines;
    }
  }
}
