/** How long a statement may get before its offsets outgrow the table, told from the number of lines. */
module PdfSizes {
  import opened Common
  import opened Sequences
  import opened Decimal
  import opened PdfWriter
  import opened PdfReader
  import opened PdfRoundTrip

  const MILLION: nat := 1_000_000

  // ------------------------------------------------------------------ one page

  lemma {:induction false} EscapedLength(s: SourceLine)
    ensures |EscapeEach(s)| <= 2 * |s|
  {
    if s != [] {
      EscapedLength(s[1..]);
    }
  }

  lemma ShowLength(line: SourceLine, first: bool)
    ensures 5 <= |Show(line, first)| <= 198
  {
    hide Escape, EscapeEach;
    EscapeIsUnitwise(Truncate(line));
    EscapedLength(Truncate(line));
  }

  lemma OneMore(n: nat, k: nat)
    ensures (n + 1) * k == n * k + k
  {
  }

  /** Every part is at least low and at most high characters long. */
  predicate Between(parts: seq<string>, low: nat, high: nat) {
    forall i :: 0 <= i < |parts| ==> low <= |parts[i]| <= high
  }

  lemma {:induction false} JoinLength(parts: seq<string>, low: nat, high: nat)
    requires Between(parts, low, high)
    ensures |parts| * low <= |Join(parts, " ")| <= |parts| * (high + 1)
  {
    if |parts| > 1 {
      assert low <= |parts[0]| <= high;
      assert Between(parts[1..], low, high);
      hide Between;
      JoinLength(parts[1..], low, high);
      OneMore(|parts| - 1, low);
      OneMore(|parts| - 1, high + 1);
    } else if |parts| == 1 {
      assert low <= |parts[0]| <= high;
    }
  }

  lemma StreamLength(page: seq<SourceLine>)
    ensures 5 * |page| <= |Stream(page)| <= 199 * |page| + 40
  {
    hide Show, Join;
    forall i | 0 <= i < |page|
      ensures 5 <= |Shows(page)[i]| <= 198
    {
      ShowLength(page[i], i == 0);
    }
    JoinLength(Shows(page), 5, 198);
  }

  lemma ShortNumber(n: nat)
    requires n < TEN_DIGITS
    ensures |Text(n)| <= 10
  {
    TextLength(n, 10);
    TenDigits();
  }

  lemma WrappedLength(k: nat, text: string)
    ensures |text| <= |Wrapped(k, text)|
    ensures k < TEN_DIGITS ==> |Wrapped(k, text)| <= |text| + 25
  {
    hide Text;
    if k < TEN_DIGITS {
      ShortNumber(k);
    }
  }

  lemma ContentLength(stream: string)
    ensures |stream| <= |ContentObject(stream)|
    ensures |stream| < TEN_DIGITS ==> |ContentObject(stream)| <= |stream| + 45
  {
    hide Text;
    if |stream| < TEN_DIGITS {
      ShortNumber(|stream|);
    }
  }

  lemma PageHeadLength()
    ensures |PAGE_HEAD| == 102
  {
  }

  lemma PageObjectLength(contentId: nat)
    ensures 102 <= |PageObject(contentId)|
    ensures contentId < TEN_DIGITS ==> |PageObject(contentId)| <= 120
  {
    hide Text, PAGE_HEAD;
    PageHeadLength();
    if contentId < TEN_DIGITS {
      ShortNumber(contentId);
    }
  }

  lemma BodySnoc(objects: seq<string>, k: nat)
    requires k < |objects|
    ensures |Body(objects, k + 1)| == |Body(objects, k)| + |Wrapped(k + 1, objects[k])|
  {
  }

  /** Length of the file up to page i. */
  function UpToPage(pages: seq<seq<SourceLine>>, i: nat): nat
    requires i <= |pages|
  {
    |Body(Objects(pages), 3 + 2 * i)|
  }

  /** What page i adds to the file: 342 characters at least when it is full, 9,815 at most. */
  lemma PageLength(pages: seq<seq<SourceLine>>, i: nat)
    requires i < |pages| && |pages[i]| <= LINES_PER_PAGE
    ensures var added := UpToPage(pages, i + 1) - UpToPage(pages, i);
            && (ObjectCount(pages) < TEN_DIGITS ==> added <= 9_815)
            && (|pages[i]| == LINES_PER_PAGE ==> added >= 342)
  {
    hide Body, Wrapped, PageObject, ContentObject, Stream, Objects, FONT, ObjectText;
    var objects := Objects(pages);
    ObjectsOfPage(pages, i);
    BodySnoc(objects, 3 + 2 * i);
    BodySnoc(objects, 4 + 2 * i);
    PageObjectLength(5 + 2 * i);
    WrappedLength(4 + 2 * i, objects[3 + 2 * i]);
    StreamLength(pages[i]);
    ContentLength(Stream(pages[i]));
    WrappedLength(5 + 2 * i, objects[4 + 2 * i]);
  }

  // ------------------------------------------------------------------ the whole file

  lemma ReferenceLength(id: nat)
    requires id < TEN_DIGITS
    ensures |Reference(id)| <= 14
  {
    hide Text;
    ShortNumber(id);
  }

  lemma PageTreeLength(n: nat)
    requires n <= MILLION
    ensures |PageTree(PageIds(n))| <= 15 * n + 50
  {
    var ids := PageIds(n);
    hide Reference, Join, Text;
    forall i | 0 <= i < n
      ensures |Map(Reference, ids)[i]| <= 14
    {
      ReferenceLength(ids[i]);
    }
    JoinLength(Map(Reference, ids), 0, 14);
    ShortNumber(n);
  }

  lemma FixedObjects()
    ensures |HEADER| == 9 && |CATALOG| == 33 && |FONT| == 52
  {
  }

  /** The file before the first page. */
  lemma FrontLength(pages: seq<seq<SourceLine>>)
    requires |pages| <= MILLION
    ensures |Body(Objects(pages), 3)| <= 15 * |pages| + 220
  {
    hide Body, Wrapped, PageTree, PageIds, CATALOG, FONT, HEADER, Stream;
    var objects := Objects(pages);
    assert objects[0] == CATALOG && objects[1] == PageTree(PageIds(|pages|)) && objects[2] == FONT;
    hide Objects;
    FixedObjects();
    PageTreeLength(|pages|);
    BodyOfNothing(objects);
    BodySnoc(objects, 0);
    BodySnoc(objects, 1);
    BodySnoc(objects, 2);
    WrappedLength(1, objects[0]);
    WrappedLength(2, objects[1]);
    WrappedLength(3, objects[2]);
  }

  lemma BodyOfNothing(objects: seq<string>)
    ensures Body(objects, 0) == HEADER
  {
  }

  predicate PagesFit(pages: seq<seq<SourceLine>>) {
    forall i :: 0 <= i < |pages| ==> |pages[i]| <= LINES_PER_PAGE
  }

  lemma {:induction false} BodyAtMost(pages: seq<seq<SourceLine>>, i: nat)
    requires i <= |pages| <= MILLION && PagesFit(pages)
    ensures UpToPage(pages, i) <= 15 * |pages| + 220 + 9_815 * i
  {
    if i == 0 {
      FrontLength(pages);
    } else {
      BodyAtMost(pages, i - 1);
      assert |pages[i - 1]| <= LINES_PER_PAGE;
      hide UpToPage, PagesFit;
      PageLength(pages, i - 1);
    }
  }

  predicate FullPages(pages: seq<seq<SourceLine>>, n: nat) {
    n <= |pages| && forall i :: 0 <= i < n ==> |pages[i]| == LINES_PER_PAGE
  }

  lemma {:induction false} BodyAtLeast(pages: seq<seq<SourceLine>>, i: nat)
    requires FullPages(pages, i)
    ensures UpToPage(pages, i) >= 342 * i
  {
    if i > 0 {
      BodyAtLeast(pages, i - 1);
      hide UpToPage;
      PageLength(pages, i - 1);
    }
  }

  lemma {:induction false} PageCount(lines: seq<SourceLine>)
    ensures |Pages(lines)| == (|lines| + LINES_PER_PAGE - 1) / LINES_PER_PAGE
    decreases |lines|
  {
    if lines != [] {
      PageCount(lines[PageCut(lines)..]);
    }
  }

  lemma LastOffset(objects: seq<string>, k: nat)
    requires 1 <= k <= |objects|
    ensures |Body(objects, k - 1)| == Offset(objects, k) <= |Body(objects, k)|
  {
  }

  lemma MillionPagesAreAddressable(pages: seq<seq<SourceLine>>)
    requires |pages| <= MILLION && PagesFit(pages)
    ensures Addressable(Objects(pages))
  {
    BodyAtMost(pages, |pages|);
    hide Body, Objects, PagesFit, Addressable;
    ShortBodyIsAddressable(Objects(pages));
  }

  lemma ShortBodyIsAddressable(objects: seq<string>)
    requires objects != [] && |Body(objects, |objects|)| < TEN_DIGITS
    ensures Addressable(objects)
  {
    LastOffset(objects, |objects|);
  }

  lemma OverfullPagesAreNotAddressable(pages: seq<seq<SourceLine>>)
    requires |pages| > 30 * MILLION && FullPages(pages, |pages| - 1)
    ensures !Addressable(Objects(pages))
  {
    BodyAtLeast(pages, |pages| - 1);
    hide UpToPage, Addressable;
    LongBodyIsNotAddressable(pages);
  }

  lemma LongBodyIsNotAddressable(pages: seq<seq<SourceLine>>)
    requires pages != [] && UpToPage(pages, |pages| - 1) >= TEN_DIGITS
    ensures !Addressable(Objects(pages))
  {
    hide Body, Objects;
    BodySnoc(Objects(pages), 1 + 2 * |pages|);
    LastOffset(Objects(pages), ObjectCount(pages));
  }

  /** A statement of up to 48 million lines, whatever they hold, reads back page for page. */
  lemma MillionPagesRoundTrip(lines: seq<SourceLine>)
    requires |lines| <= 48_000_000
    ensures ReadDocument(Pdf(lines)) == Some(Map(ShownPage, Pages(lines)))
  {
    hide Pages, Objects, Addressable, ReadDocument, Pdf, ShownPage;
    PageCount(lines);
    PagesPartitionTheLines(lines);
    MillionPagesAreAddressable(Pages(lines));
    PdfRoundTripsExactly(lines);
  }

  /** So does every statement whose file has at most ten billion bytes: no shorter file can fail. */
  lemma FilesUpToTenBillionBytesRoundTrip(lines: seq<SourceLine>)
    requires |Pdf(lines)| <= TEN_DIGITS
    ensures ReadDocument(Pdf(lines)) == Some(Map(ShownPage, Pages(lines)))
  {
    hide Pages, Body, Objects, ReadDocument, Pdf, ShownPage, File;
    var objects := Objects(Pages(lines));
    assert Pdf(lines) == File(objects) by { PdfIsTheFile(lines); }
    FileFromObject(objects, |objects|);
    PdfRoundTripsExactly(lines);
  }

  lemma PdfIsTheFile(lines: seq<SourceLine>)
    ensures Pdf(lines) == File(Objects(Pages(lines)))
  {
  }

  /** From 1,440 million lines on, even empty ones, the last offset has eleven digits. */
  lemma ThirtyMillionFullPagesOverflow(lines: seq<SourceLine>)
    requires |lines| > 1_440_000_000
    ensures ReadDocument(Pdf(lines)) != Some(Map(ShownPage, Pages(lines)))
  {
    hide Pages, Objects, Addressable, ReadDocument, Pdf, ShownPage;
    PageCount(lines);
    PagesPartitionTheLines(lines);
    OverfullPagesAreNotAddressable(Pages(lines));
    PdfRoundTripsExactly(lines);
  }
}
