/** The PDF writer measures and positions with byte counts. Its output is pure ASCII, so the number
    of characters of any part of a file is its number of bytes. */
module PdfBytes {
  import opened Common
  import opened Sequences
  import opened Decimal
  import opened PdfWriter

  predicate Ascii(s: string) {
    forall i :: 0 <= i < |s| ==> s[i] as int < 128
  }

  lemma AsciiConcat(a: string, b: string)
    requires Ascii(a) && Ascii(b)
    ensures Ascii(a + b)
  {
  }

  lemma AsciiSandwich(a: string, b: string, c: string)
    requires Ascii(a) && Ascii(b) && Ascii(c)
    ensures Ascii(a + b + c)
  {
  }

  lemma AsciiDigits(s: string)
    requires AllDigits(s)
    ensures Ascii(s)
  {
  }

  lemma AsciiText(n: nat)
    ensures Ascii(Text(n))
  {
  }

  lemma {:induction false} AsciiJoin(parts: seq<string>, separator: string)
    requires Ascii(separator) && forall i :: 0 <= i < |parts| ==> Ascii(parts[i])
    ensures Ascii(Join(parts, separator))
  {
    if |parts| > 1 {
      AsciiJoin(parts[1..], separator);
      hide Ascii;
      AsciiSandwich(parts[0], separator, Join(parts[1..], separator));
    }
  }

  lemma AsciiShow(line: SourceLine, first: bool)
    ensures Ascii(Show(line, first))
  {
  }

  lemma AsciiPrelude()
    ensures Ascii(PRELUDE)
  {
  }

  lemma AsciiStream(page: seq<SourceLine>)
    ensures Ascii(Stream(page))
  {
    forall i | 0 <= i < |page|
      ensures Ascii(Shows(page)[i])
    {
      AsciiShow(page[i], i == 0);
    }
    assert Ascii(" ") && Ascii(" ET");
    AsciiPrelude();
    AsciiJoin(Shows(page), " ");
    hide Ascii, Join, Shows;
    AsciiSandwich(PRELUDE, Join(Shows(page), " "), " ET");
  }

  lemma AsciiPageTree(ids: seq<nat>)
    ensures Ascii(PageTree(ids))
  {
    var kids := Map(Reference, ids);
    assert Ascii(" 0 R") && Ascii(" ");
    forall i | 0 <= i < |kids|
      ensures Ascii(kids[i])
    {
      AsciiText(ids[i]);
      AsciiConcat(Text(ids[i]), " 0 R");
    }
    AsciiJoin(kids, " ");
    AsciiText(|ids|);
    var a, b, c := "<< /Type /Pages /Kids [", "]" + " /Count ", " >>";
    assert Ascii(a) && Ascii(b) && Ascii(c);
    hide Ascii, Join, Text;
    AsciiSandwich(a, Join(kids, " "), b);
    AsciiSandwich(a + Join(kids, " ") + b, Text(|ids|), c);
  }

  lemma AsciiHeader()
    ensures Ascii(HEADER)
  {
  }

  lemma AsciiCatalog()
    ensures Ascii(CATALOG)
  {
  }

  lemma AsciiFont()
    ensures Ascii(FONT)
  {
  }

  lemma AsciiParent()
    ensures Ascii("<< /Type /Page /Parent 2 0 R")
  {
  }

  lemma AsciiResources()
    ensures Ascii(" /Resources << /Font << /F1 3 0 R")
  {
  }

  lemma AsciiPageHead()
    ensures Ascii(PAGE_HEAD)
  {
    var a, b, c, d := "<< /Type /Page /Parent 2 0 R", " /MediaBox [0 0 612 792]", " /Resources << /Font << /F1 3 0 R", " >> >> /Contents ";
    assert Ascii(b) && Ascii(d);
    AsciiParent();
    AsciiResources();
    hide Ascii;
    AsciiSandwich(a, b, c);
    AsciiConcat(a + b + c, d);
  }

  lemma AsciiPageObject(contentId: nat)
    ensures Ascii(PageObject(contentId))
  {
    AsciiText(contentId);
    AsciiPageHead();
    assert Ascii(" 0 R") && Ascii(" >>");
    hide Ascii, Text, PAGE_HEAD;
    AsciiConcat(Text(contentId), " 0 R");
    AsciiSandwich(PAGE_HEAD, Reference(contentId), " >>");
  }

  lemma AsciiContentObject(stream: string)
    requires Ascii(stream)
    ensures Ascii(ContentObject(stream))
  {
    AsciiText(|stream|);
    var a, b, c := "<< /Length ", " >>\nstream\n", "\nendstream";
    assert Ascii(a) && Ascii(b) && Ascii(c);
    hide Ascii, Text;
    AsciiSandwich(a, Text(|stream|), b);
    AsciiSandwich(a + Text(|stream|) + b, stream, c);
  }

  lemma AsciiObject(pages: seq<seq<SourceLine>>, k: nat)
    requires 1 <= k <= ObjectCount(pages)
    ensures Ascii(ObjectText(pages, k))
  {
    hide Ascii, Stream, PageTree, PageObject, ContentObject, CATALOG, FONT;
    AsciiCatalog();
    AsciiFont();
    AsciiPageTree(PageIds(|pages|));
    AsciiPageObject(k + 1);
    if k > 3 && k % 2 == 1 {
      var page := pages[(k - 5) / 2];
      AsciiStream(page);
      AsciiContentObject(Stream(page));
    }
  }

  lemma AsciiWrapped(k: nat, text: string)
    requires Ascii(text)
    ensures Ascii(Wrapped(k, text))
  {
    AsciiText(k);
    assert Ascii(" 0 obj\n") && Ascii("\nendobj\n");
    hide Ascii, Text;
    AsciiSandwich(Text(k), " 0 obj\n", text);
    AsciiConcat(Text(k) + " 0 obj\n" + text, "\nendobj\n");
  }

  lemma {:induction false} AsciiBody(pages: seq<seq<SourceLine>>, k: nat)
    requires k <= ObjectCount(pages)
    ensures Ascii(Body(Objects(pages), k))
  {
    hide Ascii, Wrapped, ObjectText, HEADER;
    if k == 0 {
      AsciiHeader();
    } else {
      AsciiBody(pages, k - 1);
      AsciiObject(pages, k);
      AsciiWrapped(k, Objects(pages)[k - 1]);
      AsciiConcat(Body(Objects(pages), k - 1), Wrapped(k, Objects(pages)[k - 1]));
    }
  }

  lemma AsciiEntry(offset: nat)
    ensures Ascii(Entry(offset))
  {
    PadStartDenotes(offset, 10);
    AsciiDigits(PadStart(Text(offset), 10));
    assert Ascii(" 00000 n ");
    hide Ascii, PadStart, Text;
    AsciiConcat(PadStart(Text(offset), 10), " 00000 n ");
  }

  lemma AsciiXref(objects: seq<string>)
    ensures Ascii(XrefSection(objects))
  {
    forall i | 0 <= i < |objects|
      ensures Ascii(Entries(objects)[i])
    {
      AsciiEntry(Offset(objects, i + 1));
    }
    assert Ascii("\n") && Ascii("xref\n0 ") && Ascii("\n0000000000 65535 f \n");
    AsciiJoin(Entries(objects), "\n");
    AsciiText(|objects| + 1);
    hide Ascii, Text, Join, Entries;
    AsciiSandwich("xref\n0 ", Text(|objects| + 1), "\n0000000000 65535 f \n");
    AsciiConcat(XrefHead(|objects| + 1), Join(Entries(objects), "\n"));
  }

  lemma AsciiTrailer(objects: seq<string>)
    ensures Ascii(Trailer(objects))
  {
    var x := |Body(objects, |objects|)|;
    AsciiText(|objects| + 1);
    AsciiText(x);
    assert Ascii("\ntrailer\n<< /Size ") && Ascii(" /Root 1 0 R >>\nstartxref\n") && Ascii("\n%%EOF");
    hide Ascii, Text, Body;
    AsciiSandwich("\ntrailer\n<< /Size ", Text(|objects| + 1), " /Root 1 0 R >>\nstartxref\n");
    AsciiSandwich(TrailerHead(|objects| + 1), Text(x), "\n%%EOF");
  }

  /** Every character of the file is ASCII: encoding it changes no length and no position. */
  lemma PdfIsAscii(lines: seq<SourceLine>)
    ensures Ascii(Pdf(lines))
  {
    hide Ascii, Pages, Objects, Body, XrefSection, Trailer;
    var objects := Objects(Pages(lines));
    AsciiBody(Pages(lines), |objects|);
    AsciiXref(objects);
    AsciiTrailer(objects);
    AsciiSandwich(Body(objects, |objects|), XrefSection(objects), Trailer(objects));
  }
}
