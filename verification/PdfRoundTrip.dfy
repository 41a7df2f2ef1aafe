/** The PDF reader recovers from every file of the writer exactly what was to be shown. */
module PdfRoundTrip {
  import opened Common
  import opened Sequences
  import opened Decimal
  import opened PdfWriter
  import opened PdfReader

  const TEN_DIGITS: nat := 10_000_000_000

  // ------------------------------------------------------------------ layout

  function After(objects: seq<string>, k: nat): string
    requires k <= |objects|
    decreases |objects| - k
  {
    if k == |objects| then "" else Wrapped(k + 1, objects[k]) + After(objects, k + 1)
  }

  lemma {:induction false} BodySplits(objects: seq<string>, k: nat)
    requires k <= |objects|
    ensures Body(objects, |objects|) == Body(objects, k) + After(objects, k)
    decreases |objects| - k
  {
    hide Wrapped;
    if k == |objects| {
      assert Body(objects, k) + "" == Body(objects, k);
    } else {
      BodySplits(objects, k + 1);
      assert Body(objects, k) + Wrapped(k + 1, objects[k]) + After(objects, k + 1)
          == Body(objects, k) + (Wrapped(k + 1, objects[k]) + After(objects, k + 1));
    }
  }

  /** The file from the start of object k on. */
  lemma FileFromObject(objects: seq<string>, k: nat)
    requires 1 <= k <= |objects|
    ensures Offset(objects, k) < |File(objects)|
    ensures File(objects)[Offset(objects, k)..]
            == Wrapped(k, objects[k - 1]) + (After(objects, k) + XrefSection(objects) + Trailer(objects))
  {
    hide Wrapped, XrefSection, Trailer, Body;
    BodySplits(objects, k - 1);
    var head, w, a, x, t := Body(objects, k - 1), Wrapped(k, objects[k - 1]), After(objects, k), XrefSection(objects), Trailer(objects);
    assert File(objects) == head + (w + (a + x + t));
    WrappedNonEmpty(k, objects[k - 1]);
  }

  lemma WrappedNonEmpty(k: nat, text: string)
    ensures Wrapped(k, text) != ""
  {
  }

  lemma {:induction false} OffsetsIncrease(objects: seq<string>, j: nat, k: nat)
    requires 1 <= j <= k <= |objects|
    ensures Offset(objects, j) <= Offset(objects, k)
    ensures j < k ==> Offset(objects, j) < Offset(objects, k)
    decreases k - j
  {
    hide Wrapped;
    if j < k {
      OffsetsIncrease(objects, j, k - 1);
      WrappedNonEmpty(k - 1, objects[k - 2]);
    }
  }

  // ------------------------------------------------------------------ startxref and the table

  lemma {:induction false} DigitsBeforeOf(front: string, digits: string, rest: string)
    requires AllDigits(digits) && front != "" && !IsDigit(front[|front| - 1])
    ensures DigitsBefore(front + digits + rest, |front| + |digits|) == |front|
    decreases |digits|
  {
    var s := front + digits + rest;
    if digits != "" {
      var last := |digits| - 1;
      var digits', rest' := digits[..last], [digits[last]] + rest;
      assert s == front + digits' + rest';
      assert s[|front| + last] == digits[last];
      DigitsBeforeOf(front, digits', rest');
    }
  }

  lemma StartXrefOf(front: string, x: nat)
    ensures StartXref(front + "startxref\n" + Text(x) + "\n%%EOF") == Some(x)
  {
    var keyword, tail := "startxref\n", "\n%%EOF";
    var head := front + keyword;
    var doc := head + Text(x) + tail;
    TextDenotes(x);
    hide Text, Value, DigitsBefore;
    DigitsBeforeOf(head, Text(x), tail);
    var start, end := |head|, |head| + |Text(x)|;
    assert doc[end..] == tail;
    assert doc[start - |keyword|..start] == keyword;
    assert doc[start..end] == Text(x);
  }

  lemma FileStartXref(objects: seq<string>)
    ensures StartXref(File(objects)) == Some(|Body(objects, |objects|)|)
  {
    hide StartXref, Body, XrefSection, Text;
    var x := |Body(objects, |objects|)|;
    var front := Body(objects, |objects|) + XrefSection(objects) + TrailerFront(|objects| + 1);
    var keyword, tail := "startxref\n", "\n%%EOF";
    TrailerHeadSplits(|objects| + 1);
    Regroup(Body(objects, |objects|) + XrefSection(objects), TrailerFront(|objects| + 1) + keyword, Text(x), tail);
    Regroup(Body(objects, |objects|) + XrefSection(objects), TrailerFront(|objects| + 1), keyword, Text(x) + tail);
    assert File(objects) == front + keyword + Text(x) + tail;
    StartXrefOf(front, x);
  }

  function TrailerFront(size: nat): string {
    "\ntrailer\n<< /Size " + Text(size) + " /Root 1 0 R >>\n"
  }

  lemma TrailerHeadSplits(size: nat)
    ensures TrailerHead(size) == TrailerFront(size) + "startxref\n"
  {
  }

  const FREE_ENTRY: string := "0000000000 65535 f \n"

  function Table(objects: seq<string>): string {
    FREE_ENTRY + (Join(Entries(objects), "\n") + Trailer(objects))
  }

  lemma XrefHeadSplits(size: nat)
    ensures XrefHead(size) == "xref\n0 " + (Text(size) + ("\n" + FREE_ENTRY))
  {
  }

  lemma FileXrefTable(objects: seq<string>)
    ensures XrefTable(File(objects)) == Some((|objects| + 1, Table(objects)))
  {
    hide StartXref, Body, Trailer, Text, ReadNumber, Expect, XrefHead, Join, FREE_ENTRY;
    var size := |objects| + 1;
    var at := |Body(objects, |objects|)|;
    FileStartXref(objects);
    assert File(objects)[at..] == XrefSection(objects) + Trailer(objects);
    XrefHeadSplits(size);
    var entries, t := Join(Entries(objects), "\n"), Trailer(objects);
    Regroup("xref\n0 ", Text(size) + ("\n" + FREE_ENTRY), entries, t);
    Regroup(Text(size), "\n", FREE_ENTRY, entries + t);
    assert Text(size) + ("\n" + FREE_ENTRY) + (entries + t) == Text(size) + "\n" + FREE_ENTRY + (entries + t);
    var rest := Text(size) + ("\n" + (FREE_ENTRY + (entries + t)));
    assert XrefSection(objects) + Trailer(objects) == "xref\n0 " + rest;
    ExpectOf("xref\n0 ", rest);
    ReadNumberOf(size, "\n" + Table(objects));
    ExpectOf("\n", Table(objects));
  }

  lemma JoinedAfterFirst(entries: seq<string>, rest: string)
    requires |entries| > 1 && |entries[0]| == 19
    ensures |Join(entries, "\n") + rest| >= 20
    ensures (Join(entries, "\n") + rest)[20..] == Join(entries[1..], "\n") + rest
  {
  }

  /** While every entry before entry i has 19 characters, entry i starts at position 20 * i. */
  lemma {:induction false} JoinedEntriesFrom(entries: seq<string>, rest: string, i: nat)
    requires i < |entries|
    requires forall j :: 0 <= j < i ==> |entries[j]| == 19
    ensures |Join(entries, "\n") + rest| >= 20 * i
    ensures (Join(entries, "\n") + rest)[20 * i..] == Join(entries[i..], "\n") + rest
    decreases i
  {
    if i == 0 {
      assert entries[0..] == entries;
    } else {
      var s := Join(entries, "\n") + rest;
      JoinedAfterFirst(entries, rest);
      hide Join;
      JoinedEntriesFrom(entries[1..], rest, i - 1);
      assert entries[1..][i - 1..] == entries[i..];
      assert s[20 * i..] == s[20..][20 * (i - 1)..];
    }
  }

  lemma JoinedStarts(entries: seq<string>, rest: string)
    requires entries != [] && rest != "" && rest[0] == '\n'
    ensures entries[0] + "\n" <= Join(entries, "\n") + rest
  {
  }

  /** An entry is 20 bytes with its line feed exactly while its offset has at most ten digits. */
  lemma EntryIsTwentyBytes(offset: nat)
    ensures |Entry(offset) + "\n"| == 20 <==> offset < TEN_DIGITS
    ensures offset < TEN_DIGITS ==> AllDigits(Entry(offset)[..10]) && Value(Entry(offset)[..10]) == offset
    ensures offset < TEN_DIGITS ==> Entry(offset)[10..] == " 00000 n "
  {
    PadStartDenotes(offset, 10);
    TenDigits();
    var p := PadStart(Text(offset), 10);
    if offset < TEN_DIGITS {
      assert Entry(offset)[..10] == p;
      assert Entry(offset)[10..] == " 00000 n ";
    }
  }

  lemma TenDigits()
    ensures Pow10(10) == TEN_DIGITS
  {
  }

  /** The offsets of a file fit the table. */
  predicate Addressable(objects: seq<string>) {
    objects != [] && Offset(objects, |objects|) < TEN_DIGITS
  }

  /** The table from entry k on, as long as the earlier offsets fit. */
  lemma TableFromEntry(objects: seq<string>, k: nat)
    requires 1 <= k <= |objects| && (forall j :: 1 <= j < k ==> Offset(objects, j) < TEN_DIGITS)
    ensures |Table(objects)| >= 20 * k
    ensures Entry(Offset(objects, k)) + "\n" <= Table(objects)[20 * k..]
  {
    hide Body, Entry, Trailer, Join;
    var entries := Entries(objects);
    forall j | 0 <= j < k - 1
      ensures |entries[j]| == 19
    {
      EntryIsTwentyBytes(Offset(objects, j + 1));
    }
    var rest := Trailer(objects);
    JoinedEntriesFrom(entries, rest, k - 1);
    TrailerStarts(objects);
    JoinedStarts(entries[k - 1..], rest);
    assert |FREE_ENTRY| == 20;
    assert Table(objects)[20 * k..] == (Join(entries, "\n") + rest)[20 * (k - 1)..];
  }

  lemma FileLocates(objects: seq<string>, k: nat)
    requires Addressable(objects) && 1 <= k <= |objects|
    ensures Locate(File(objects), k) == Some(Offset(objects, k))
  {
    hide XrefTable, Body, Entry, Trailer, Join, File, Table;
    FileXrefTable(objects);
    forall j | 1 <= j <= k
      ensures Offset(objects, j) < TEN_DIGITS
    {
      OffsetsIncrease(objects, j, |objects|);
    }
    TableFromEntry(objects, k);
    EntryIsTwentyBytes(Offset(objects, k));
    var table, line := Table(objects), Entry(Offset(objects, k)) + "\n";
    var entry := table[20 * k..20 * (k + 1)];
    assert entry == table[20 * k..][..20] == line;
    assert entry[..10] == Entry(Offset(objects, k))[..10];
    assert entry[10..] == Entry(Offset(objects, k))[10..] + "\n";
  }

  /** The first offset of eleven digits leaves its entry without a line feed in place. */
  lemma FirstOverflowIsNotLocated(objects: seq<string>, k: nat)
    requires 1 <= k <= |objects| && Offset(objects, k) >= TEN_DIGITS
    requires forall j :: 1 <= j < k ==> Offset(objects, j) < TEN_DIGITS
    ensures Locate(File(objects), k) == None
  {
    hide XrefTable, Body, Trailer, Join, File, Table, Text;
    FileXrefTable(objects);
    TableFromEntry(objects, k);
    var table, line := Table(objects), Entry(Offset(objects, k)) + "\n";
    PadStartDenotes(Offset(objects, k), 10);
    TextDenotes(Offset(objects, k));
    TenDigits();
    assert IsDigit(line[10]);
    if |table| >= 20 * (k + 1) {
      var entry := table[20 * k..20 * (k + 1)];
      assert entry == table[20 * k..][..20];
      assert entry[10] == line[10];
    }
  }

  /** The table is regular exactly when every offset fits ten digits. */
  lemma TableRegularExactlyWhenAddressable(objects: seq<string>)
    requires objects != []
    ensures TableIsRegular(File(objects)) <==> Addressable(objects)
  {
    hide XrefTable, Locate, File, Table, Body;
    FileXrefTable(objects);
    if Addressable(objects) {
      forall k | 1 <= k < |objects| + 1
        ensures Locate(File(objects), k).Some?
      {
        FileLocates(objects, k);
      }
    } else {
      var k := FirstOverflow(objects, 1);
      FirstOverflowIsNotLocated(objects, k);
    }
  }

  lemma {:induction false} FirstOverflow(objects: seq<string>, from: nat) returns (k: nat)
    requires 1 <= from <= |objects| && Offset(objects, |objects|) >= TEN_DIGITS
    requires forall j :: 1 <= j < from ==> Offset(objects, j) < TEN_DIGITS
    ensures 1 <= k <= |objects| && Offset(objects, k) >= TEN_DIGITS
    ensures forall j :: 1 <= j < k ==> Offset(objects, j) < TEN_DIGITS
    decreases |objects| - from
  {
    hide Body;
    if Offset(objects, from) >= TEN_DIGITS {
      k := from;
    } else {
      k := FirstOverflow(objects, from + 1);
    }
  }

  lemma TrailerStarts(objects: seq<string>)
    ensures Trailer(objects) != "" && Trailer(objects)[0] == '\n'
  {
  }

  /** What a reader finds after `k 0 obj`. */
  function Tail(objects: seq<string>, k: nat): string
    requires 1 <= k <= |objects|
  {
    "\nendobj\n" + (After(objects, k) + XrefSection(objects) + Trailer(objects))
  }

  lemma FileOpens(objects: seq<string>, k: nat)
    requires Addressable(objects) && 1 <= k <= |objects|
    ensures Open(File(objects), k) == Some(objects[k - 1] + Tail(objects, k))
  {
    hide Locate, After, XrefSection, Trailer, File, Body, ReadNumber, Expect, Text;
    FileLocates(objects, k);
    FileFromObject(objects, k);
    var rest := After(objects, k) + XrefSection(objects) + Trailer(objects);
    var text := objects[k - 1];
    Regroup(Text(k) + " 0 obj\n", text, "\nendobj\n", rest);
    Regroup(Text(k), " 0 obj\n", text, "\nendobj\n" + rest);
    var body := text + Tail(objects, k);
    assert Wrapped(k, text) + rest == Text(k) + (" 0 obj\n" + body);
    ReadNumberOf(k, " 0 obj\n" + body);
    ExpectOf(" 0 obj\n", body);
  }

  // ------------------------------------------------------------------ objects

  lemma CatalogReads(objects: seq<string>)
    requires Addressable(objects) && objects[0] == CATALOG
    ensures ReadCatalog(File(objects)) == Some(2)
  {
    hide Open, File, Tail, ReadReference, Expect, TrailerRoot;
    RootIsFirst(objects);
    FileOpens(objects, 1);
    var rest := " >>" + Tail(objects, 1);
    CatalogSplits();
    Regroup("<< /Type /Catalog /Pages ", Reference(2), " >>", Tail(objects, 1));
    ExpectOf("<< /Type /Catalog /Pages ", Reference(2) + rest);
    ReadReferenceOf(2, rest);
  }

  /** Behind the table stands the trailer. */
  lemma TableEnds(objects: seq<string>)
    requires Addressable(objects)
    ensures |Table(objects)| >= 20 * (|objects| + 1)
    ensures Table(objects)[20 * (|objects| + 1)..] == Trailer(objects)[1..]
  {
    hide Body, Entry, Trailer, Join;
    var entries, rest, n := Entries(objects), Trailer(objects), |objects|;
    forall j | 0 <= j < n
      ensures |entries[j]| == 19
    {
      OffsetsIncrease(objects, j + 1, n);
      EntryIsTwentyBytes(Offset(objects, j + 1));
    }
    JoinedEntriesFrom(entries, rest, n - 1);
    LastOfJoined(entries, n - 1);
    TrailerStarts(objects);
    assert |FREE_ENTRY| == 20;
    var s := Join(entries, "\n") + rest;
    assert s[20 * (n - 1)..] == entries[n - 1] + rest;
    assert s[20 * n..] == s[20 * (n - 1)..][20..] == rest[1..];
    assert Table(objects)[20 * (n + 1)..] == s[20 * n..];
  }

  lemma LastOfJoined(entries: seq<string>, last: nat)
    requires last + 1 == |entries|
    ensures Join(entries[last..], "\n") == entries[last]
  {
  }

  lemma TrailerSplits(objects: seq<string>)
    ensures Trailer(objects)[1..]
         == "trailer\n<< /Size " + (Text(|objects| + 1) + (" /Root " + (Reference(1)
            + (" >>\nstartxref\n" + (Text(|Body(objects, |objects|)|) + "\n%%EOF")))))
  {
    hide Body, Text;
    var size, x := Text(|objects| + 1), Text(|Body(objects, |objects|)|);
    var head, root, end := "\ntrailer\n<< /Size ", " /Root 1 0 R >>\nstartxref\n", "\n%%EOF";
    assert head[1..] == "trailer\n<< /Size ";
    RootPart();
    hide Reference;
    WithoutFirst(head, size, root, x + end);
    assert Trailer(objects) == head + size + root + (x + end);
    Regroup(" /Root ", Reference(1), " >>\nstartxref\n", x + end);
  }

  lemma WithoutFirst(head: string, a: string, b: string, c: string)
    requires head != ""
    ensures (head + a + b + c)[1..] == head[1..] + (a + (b + c))
  {
  }

  lemma RootPart()
    ensures " /Root 1 0 R >>\nstartxref\n" == " /Root " + Reference(1) + " >>\nstartxref\n"
  {
  }

  lemma RootIsFirst(objects: seq<string>)
    requires Addressable(objects)
    ensures TrailerRoot(File(objects)) == Some(1)
  {
    hide XrefTable, File, Table, Trailer, Body, ReadNumber, ReadReference, Expect, Text, Reference, Addressable;
    FileXrefTable(objects);
    TableEnds(objects);
    TrailerSplits(objects);
    var size := |objects| + 1;
    var s4 := " >>\nstartxref\n" + (Text(|Body(objects, |objects|)|) + "\n%%EOF");
    var s3 := Reference(1) + s4;
    var s2 := " /Root " + s3;
    ExpectOf("trailer\n<< /Size ", Text(size) + s2);
    ReadNumberOf(size, s2);
    ExpectOf(" /Root ", s3);
    ReadReferenceOf(1, s4);
  }

  lemma CatalogSplits()
    ensures CATALOG == "<< /Type /Catalog /Pages " + Reference(2) + " >>"
  {
  }

  lemma {:induction false} JoinFrom(parts: seq<string>, i: nat)
    requires i < |parts|
    ensures Join(parts[i..], " ") == parts[i] + (if i + 1 == |parts| then "" else " ") + Join(parts[i + 1..], " ")
  {
  }

  lemma {:induction false} ReferencesRead(ids: seq<nat>, rest: string)
    ensures ReadReferences(Join(Map(Reference, ids), " ") + ("]" + rest)) == Some((ids, rest))
    decreases |ids|
  {
    var end := "]" + rest;
    if ids == [] {
      assert end[1..] == rest && Join(Map(Reference, ids), " ") + end == end;
    } else {
      hide ReadReferences, Reference;
      var more := Join(Map(Reference, ids[1..]), " ") + end;
      var gap := if |ids| == 1 then "" else " ";
      FirstReference(ids, end);
      hide Join;
      ReferencesRead(ids[1..], rest);
      GapSkips(gap, more);
      ReferenceReads(ids[0], gap + more);
      assert [ids[0]] + ids[1..] == ids;
    }
  }

  lemma FirstReference(ids: seq<nat>, end: string)
    requires ids != []
    ensures Join(Map(Reference, ids), " ") + end
         == Reference(ids[0]) + ((if |ids| == 1 then "" else " ") + (Join(Map(Reference, ids[1..]), " ") + end))
  {
    hide Reference;
    var kids := Map(Reference, ids);
    assert kids[0..] == kids && kids[1..] == Map(Reference, ids[1..]);
    JoinFrom(kids, 0);
    hide Join;
    Regroup(kids[0], if |ids| == 1 then "" else " ", Join(kids[1..], " "), end);
  }

  lemma GapSkips(gap: string, more: string)
    requires gap == "" || gap == " "
    ensures ReadReferences(gap + more) == ReadReferences(more)
  {
    if gap == "" {
      assert gap + more == more;
    } else {
      assert (gap + more)[1..] == more;
    }
  }

  lemma ReferenceReads(id: nat, more: string)
    requires ReadReferences(more).Some?
    ensures ReadReferences(Reference(id) + more)
            == Some(([id] + ReadReferences(more).value.0, ReadReferences(more).value.1))
  {
    ReferenceStarts(id, more);
    ReadReferenceOf(id, more);
    hide Reference, ReadReference;
  }

  lemma ReferenceStarts(id: nat, rest: string)
    ensures Reference(id) + rest != "" && IsDigit((Reference(id) + rest)[0])
    ensures |rest| < |Reference(id) + rest|
  {
    TextDenotes(id);
  }

  lemma KidsRead(objects: seq<string>, ids: seq<nat>)
    requires Addressable(objects) && |objects| >= 2 && objects[1] == PageTree(ids)
    ensures ReadKids(File(objects), 2) == Some(ids)
  {
    hide Open, File, Tail, ReadReferences, Expect, ReadNumber, Text, Join;
    FileOpens(objects, 2);
    var t := Tail(objects, 2);
    var kids, count := Join(Map(Reference, ids), " "), Text(|ids|);
    var last := " >>" + t;
    var afterKids := " /Count " + (count + last);
    PageTreeSplits(ids);
    Regroup("<< /Type /Pages /Kids [", kids + "]", " /Count " + (count + " >>"), t);
    assert PageTree(ids) + t == "<< /Type /Pages /Kids [" + (kids + ("]" + afterKids));
    ExpectOf("<< /Type /Pages /Kids [", kids + ("]" + afterKids));
    ReferencesRead(ids, afterKids);
    ExpectOf(" /Count ", count + last);
    ReadNumberOf(|ids|, last);
  }

  lemma PageTreeSplits(ids: seq<nat>)
    ensures PageTree(ids) == "<< /Type /Pages /Kids [" + (Join(Map(Reference, ids), " ") + "]") + (" /Count " + (Text(|ids|) + " >>"))
  {
    hide Join, Text;
    Bracket("<< /Type /Pages /Kids [", Join(Map(Reference, ids), " "), "]", " /Count ", Text(|ids|), " >>");
  }

  lemma Bracket(a: string, b: string, c: string, d: string, e: string, f: string)
    ensures a + b + (c + d) + e + f == a + (b + c) + (d + (e + f))
  {
  }

  lemma PageEntryReads(objects: seq<string>, k: nat, contents: nat)
    requires Addressable(objects) && 1 <= k <= |objects| && objects[k - 1] == PageObject(contents)
    ensures ReadPageEntry(File(objects), k) == Some(PageEntry(2, 3, contents))
  {
    hide Open, File, Tail, ReadReference, Expect, Reference, PageObject;
    FileOpens(objects, k);
    var t := " >>" + Tail(objects, k);
    var s3 := " >> >> /Contents " + (Reference(contents) + t);
    var s2 := " /Resources << /Font << /F1 " + (Reference(3) + s3);
    var s1 := " /MediaBox [0 0 612 792]" + s2;
    PageObjectReads(contents, Tail(objects, k));
    ExpectOf("<< /Type /Page /Parent ", Reference(2) + s1);
    ReadReferenceOf(2, s1);
    ExpectOf(" /MediaBox [0 0 612 792]", s2);
    ExpectOf(" /Resources << /Font << /F1 ", Reference(3) + s3);
    ReadReferenceOf(3, s3);
    ExpectOf(" >> >> /Contents ", Reference(contents) + t);
    ReadReferenceOf(contents, t);
  }

  lemma PageObjectReads(contents: nat, t: string)
    ensures PageObject(contents) + t
            == "<< /Type /Page /Parent " + (Reference(2) + (" /MediaBox [0 0 612 792]"
               + (" /Resources << /Font << /F1 " + (Reference(3)
               + (" >> >> /Contents " + (Reference(contents) + (" >>" + t)))))))
  {
    PageHeadSplits();
    hide Reference, PAGE_HEAD;
    Associate("<< /Type /Page /Parent ", Reference(2), " /MediaBox [0 0 612 792]", " /Resources << /Font << /F1 ",
              Reference(3), " >> >> /Contents ", Reference(contents) + " >>" + t);
    Regroup(PAGE_HEAD, Reference(contents), " >>", t);
    assert Reference(contents) + " >>" + t == Reference(contents) + (" >>" + t);
  }

  lemma PageHeadSplits()
    ensures PAGE_HEAD == ("<< /Type /Page /Parent " + Reference(2)) + " /MediaBox [0 0 612 792]"
                         + (" /Resources << /Font << /F1 " + Reference(3)) + " >> >> /Contents "
  {
  }

  lemma Associate(a: string, b: string, c: string, d: string, e: string, f: string, g: string)
    ensures (a + b) + c + (d + e) + f + g == a + (b + (c + (d + (e + (f + g)))))
  {
  }

  lemma FontReads(objects: seq<string>)
    requires Addressable(objects) && |objects| >= 3 && objects[2] == FONT
    ensures IsFont(File(objects), 3)
  {
    hide Open, File, Tail, FONT;
    FileOpens(objects, 3);
    FontStarts(Tail(objects, 3));
  }

  lemma FontStarts(rest: string)
    ensures "<< /Type /Font" <= FONT + rest
  {
  }

  lemma StreamReads(objects: seq<string>, k: nat, stream: string)
    requires Addressable(objects) && 1 <= k <= |objects| && objects[k - 1] == ContentObject(stream)
    ensures ReadStream(File(objects), k) == Some(stream)
  {
    hide Open, File, Tail, ReadNumber, Expect, Text;
    FileOpens(objects, k);
    var t := Tail(objects, k);
    var body := stream + ("\nendstream" + t);
    var head := " >>\nstream\n" + body;
    Regroup("<< /Length " + Text(|stream|) + " >>\nstream\n", stream, "\nendstream", t);
    Regroup("<< /Length ", Text(|stream|), " >>\nstream\n", body);
    assert ContentObject(stream) + t == "<< /Length " + (Text(|stream|) + head);
    ExpectOf("<< /Length ", Text(|stream|) + head);
    ReadNumberOf(|stream|, head);
    ExpectOf(" >>\nstream\n", body);
    assert body[|stream|..] == "\nendstream" + t && body[..|stream|] == stream;
    ExpectOf("\nendstream", t);
  }

  // ------------------------------------------------------------------ pages

  function ShownLine(line: SourceLine): string {
    Fold(Truncate(line))
  }

  /** What a reader sees of a line, unit by unit: the first 95 units, each printable ASCII unit as it is and
      any other as a question mark. */
  lemma ShownLineIs(line: SourceLine)
    ensures |ShownLine(line)| == Min(95, |line|)
    ensures forall i :: 0 <= i < |ShownLine(line)| ==>
              if 0x20 <= line[i] <= 0x7E then ShownLine(line)[i] as int == line[i] else ShownLine(line)[i] == '?'
  {
  }

  /** Line i of a page: 12 units below the one before, alone on its line. */
  function PlacedLine(line: SourceLine, i: nat): Placed {
    Placed(42, 750 - 12 * i, 0, "F1", 9, ShownLine(line))
  }

  /** The text state when i lines have been shown. */
  function Cursor(i: nat): TextState {
    TextState("F1", 9, 12, 42, if i == 0 then 750 else 750 - 12 * (i - 1), if i == 0 then 0 else 1, "", [])
  }

  /** A token that shows nothing leaves everything to what follows. */
  lemma TokenReads(s: string, t: TextState, rest: string, next: TextState)
    requires s != "" && ReadToken(s, t) == Some(([], rest, next))
    ensures ReadContent(s, t) == ReadContent(rest, next)
  {
    hide ReadToken;
    if ReadContent(rest, next).Some? {
      assert [] + ReadContent(rest, next).value == ReadContent(rest, next).value;
    }
  }

  lemma SpaceReads(rest: string, t: TextState)
    ensures ReadContent(" " + rest, t) == ReadContent(rest, t)
  {
    hide ReadContent;
    assert (" " + rest)[1..] == rest;
    TokenReads(" " + rest, t, rest, t);
  }

  lemma {:induction false} WordEndOf(word: string, rest: string)
    requires word != "" && ' ' !in word && (rest == "" || rest[0] == ' ')
    ensures WordEnd(word + rest) == |word|
    ensures (word + rest)[..|word|] == word && (word + rest)[|word|..] == rest
    decreases |word|
  {
    if |word| > 1 {
      assert (word + rest)[1..] == word[1..] + rest;
      assert word[1] in word && forall c :: c in word[1..] ==> c in word;
      WordEndOf(word[1..], rest);
    }
  }

  lemma OperatorReads(op: string, rest: string, t: TextState)
    requires op != "" && ' ' !in op && op[0] != '(' && op[0] != '/' && !IsDigit(op[0]) && Operate(op, t).Some?
    requires rest == "" || rest[0] == ' '
    ensures ReadContent(op + rest, t) == ReadContent(rest, Operate(op, t).value)
  {
    hide Operate, WordEnd, ReadContent;
    WordEndOf(op, rest);
    assert op[0] in op;
    TokenReads(op + rest, t, rest, Operate(op, t).value);
  }

  lemma NumberReads(n: nat, rest: string, t: TextState)
    requires rest != "" && rest[0] == ' '
    ensures ReadContent(Text(n) + rest, t) == ReadContent(rest, t.(operands := t.operands + [n]))
  {
    TextDenotes(n);
    hide Text, Value, WordEnd, ReadContent;
    assert ' ' !in Text(n);
    WordEndOf(Text(n), rest);
    assert IsDigit(Text(n)[0]);
    TokenReads(Text(n) + rest, t, rest, t.(operands := t.operands + [n]));
  }

  lemma NameReads(name: string, rest: string, t: TextState)
    requires ' ' !in name && rest != "" && rest[0] == ' '
    ensures ReadContent("/" + name + rest, t) == ReadContent(rest, t.(name := name))
  {
    hide WordEnd, ReadContent;
    WordEndOf("/" + name, rest);
    var s, n := "/" + name + rest, 1 + |name|;
    assert s[1..n] == name && s[n..] == rest;
    TokenReads(s, t, rest, t.(name := name));
  }

  lemma OperatorThen(op: string, rest: string, t: TextState)
    requires op != "" && ' ' !in op && op[0] != '(' && op[0] != '/' && !IsDigit(op[0]) && Operate(op, t).Some?
    ensures ReadContent(op + (" " + rest), t) == ReadContent(rest, Operate(op, t).value)
  {
    hide Operate, ReadContent;
    OperatorReads(op, " " + rest, t);
    SpaceReads(rest, Operate(op, t).value);
  }

  lemma NumberThen(n: nat, rest: string, t: TextState)
    ensures ReadContent(Text(n) + (" " + rest), t) == ReadContent(rest, t.(operands := t.operands + [n]))
  {
    hide ReadContent, Text;
    NumberReads(n, " " + rest, t);
    SpaceReads(rest, t.(operands := t.operands + [n]));
  }

  lemma FontSelected(rest: string)
    ensures ReadContent("BT" + (" " + ("/F1" + (" " + (Text(9) + (" " + ("Tf" + (" " + rest))))))), START)
         == ReadContent(rest, START.(font := "F1", size := 9))
  {
    hide ReadContent, Text;
    var tf := "Tf" + (" " + rest);
    var nine := Text(9) + (" " + tf);
    var named := START.(name := "F1");
    OperatorThen("BT", "/F1" + (" " + nine), START);
    NameReads("F1", " " + nine, START);
    assert "/" + "F1" + (" " + nine) == "/F1" + (" " + nine);
    SpaceReads(nine, named);
    NumberThen(9, tf, named);
    assert named.operands + [9] == [9];
    OperatorThen("Tf", rest, named.(operands := [9]));
  }

  lemma LeadingSet(rest: string, t: TextState)
    requires t.operands == [] && t.name == ""
    ensures ReadContent(Text(12) + (" " + ("TL" + (" " + rest))), t) == ReadContent(rest, t.(leading := 12))
  {
    hide ReadContent, Text;
    NumberThen(12, "TL" + (" " + rest), t);
    assert [] + [12] == [12];
    OperatorThen("TL", rest, t.(operands := [12]));
  }

  lemma PositionSet(rest: string)
    ensures ReadContent(Text(42) + (" " + (Text(750) + (" " + ("Td" + (" " + (Text(12) + (" " + ("TL" + (" " + rest))))))))),
                        START.(font := "F1", size := 9))
         == ReadContent(rest, Cursor(0))
  {
    hide ReadContent, Text;
    var t := START.(font := "F1", size := 9);
    var twelve := Text(12) + (" " + ("TL" + (" " + rest)));
    var td := "Td" + (" " + twelve);
    NumberThen(42, Text(750) + (" " + td), t);
    assert t.operands + [42] == [42] && [42] + [750] == [42, 750];
    NumberThen(750, td, t.(operands := [42]));
    OperatorThen("Td", twelve, t.(operands := [42, 750]));
    LeadingSet(rest, t.(x := 42, y := 750));
  }

  lemma Numerals()
    ensures Text(9) == "9" && Text(12) == "12" && Text(42) == "42" && Text(750) == "750"
  {
    assert Text(75) == "75";
  }

  lemma FontPart(rest: string)
    ensures "BT /F1 9 Tf " + rest == "BT" + (" " + ("/F1" + (" " + ("9" + (" " + ("Tf" + (" " + rest)))))))
  {
  }

  lemma PositionPart(rest: string)
    ensures "42 750 Td 12 TL " + rest
         == "42" + (" " + ("750" + (" " + ("Td" + (" " + ("12" + (" " + ("TL" + (" " + rest)))))))))
  {
  }

  /** Font, position and leading are set first. */
  lemma PreludeReads(rest: string)
    ensures ReadContent(PRELUDE + rest, START) == ReadContent(rest, Cursor(0))
  {
    hide ReadContent;
    Numerals();
    hide Text;
    FontSelected("42 750 Td 12 TL " + rest);
    FontPart("42 750 Td 12 TL " + rest);
    PositionSet(rest);
    PositionPart(rest);
    assert PRELUDE + rest == "BT /F1 9 Tf " + ("42 750 Td 12 TL " + rest);
  }

  /** A line shown first on its page, or after a move to the next line. */
  lemma ShowReads(line: SourceLine, i: nat, rest: string)
    requires ReadContent(rest, Cursor(i + 1)).Some?
    ensures ReadContent(Show(line, i == 0) + rest, Cursor(i))
         == Some([PlacedLine(line, i)] + ReadContent(rest, Cursor(i + 1)).value)
  {
    hide ReadContent, Escape, Fold, Truncate, ReadLiteral, ReadShow;
    var text := Escape(Truncate(line));
    var body := text + ")" + (SHOW_OPERATOR + rest);
    var start := Cursor(i).(y := 750 - 12 * i, shown := 0);
    EscapeRoundTrip(Truncate(line), SHOW_OPERATOR + rest);
    ShowOf(body, ShownLine(line), rest);
    LiteralReads(body, ShownLine(line), rest, start);
    ShowSplits(line, i == 0, rest);
    if i > 0 {
      OperatorThen("T*", "(" + body, Cursor(i));
    }
  }

  lemma ShowSplits(line: SourceLine, first: bool, rest: string)
    ensures var body := Escape(Truncate(line)) + ")" + (SHOW_OPERATOR + rest);
            Show(line, first) + rest == if first then "(" + body else "T*" + (" " + ("(" + body))
  {
    hide Escape, Truncate;
    var text := Escape(Truncate(line));
    assert ") Tj" == ")" + SHOW_OPERATOR;
    Regroup("(" + text, ")", SHOW_OPERATOR, rest);
    assert "(" + text + ")" + SHOW_OPERATOR + rest == "(" + (text + ")" + (SHOW_OPERATOR + rest));
  }

  lemma LiteralReads(body: string, text: string, rest: string, t: TextState)
    requires ReadShow(body) == Some((text, rest))
    requires ReadContent(rest, t.(shown := t.shown + 1)).Some?
    ensures ReadContent("(" + body, t)
         == Some([Placed(t.x, t.y, t.shown, t.font, t.size, text)] + ReadContent(rest, t.(shown := t.shown + 1)).value)
  {
    hide ReadToken;
    TokenShows(body, text, rest, t);
  }

  lemma TokenShows(body: string, text: string, rest: string, t: TextState)
    requires ReadShow(body) == Some((text, rest))
    ensures ReadToken("(" + body, t)
         == Some(([Placed(t.x, t.y, t.shown, t.font, t.size, text)], rest, t.(shown := t.shown + 1)))
  {
    hide ReadShow, Operate, WordEnd;
    assert ("(" + body)[1..] == body;
  }

  lemma ShowOf(body: string, text: string, rest: string)
    requires ReadLiteral(body, 0) == Some((text, SHOW_OPERATOR + rest))
    ensures ReadShow(body) == Some((text, rest))
  {
    hide ReadLiteral, Expect, SHOW_OPERATOR;
    ExpectOf(SHOW_OPERATOR, rest);
  }

  function ShownPage(page: seq<SourceLine>): seq<Placed> {
    ShownFrom(page, 0)
  }

  /** The lines of a page from line i on. */
  function ShownFrom(page: seq<SourceLine>, i: nat): (placed: seq<Placed>)
    requires i <= |page|
    ensures |placed| == |page| - i
    ensures forall k :: 0 <= k < |placed| ==> placed[k] == PlacedLine(page[i + k], i + k)
  {
    seq(|page| - i, k requires 0 <= k < |page| - i => PlacedLine(page[i + k], i + k))
  }

  /** Show operators from line i of a page on, as the content stream lists them. */
  lemma {:induction false} ShowsRead(page: seq<SourceLine>, i: nat)
    requires i <= |page|
    ensures ReadContent(Join(Shows(page)[i..], " ") + " ET", Cursor(i)) == Some(ShownFrom(page, i))
    decreases |page| - i
  {
    hide ReadContent, Show, PlacedLine;
    var shows, end := Shows(page), " ET";
    if i == |page| {
      EndReads(Cursor(i));
      assert Join(shows[i..], " ") + end == end;
    } else {
      var gap := if i + 1 == |page| then "" else " ";
      var next := Join(shows[i + 1..], " ");
      JoinFrom(shows, i);
      hide Join;
      ShowsRead(page, i + 1);
      if gap == " " {
        SpaceReads(next + end, Cursor(i + 1));
      } else {
        assert gap + (next + end) == next + end;
      }
      ShowReads(page[i], i, gap + (next + end));
      Regroup(Show(page[i], i == 0), gap, next, end);
      assert ShownFrom(page, i) == [PlacedLine(page[i], i)] + ShownFrom(page, i + 1);
    }
  }

  lemma EndReads(t: TextState)
    requires t.operands == []
    ensures ReadContent(" ET", t) == Some([])
  {
    SpaceReads("ET", t);
    OperatorReads("ET", "", t);
    assert " " + "ET" == " ET" && "ET" + "" == "ET";
  }

  /** A content stream shows its page's lines one below the other, each alone on its line. */
  lemma ShownStream(page: seq<SourceLine>)
    ensures ReadContent(Stream(page), START) == Some(ShownPage(page))
  {
    hide ReadContent, Join, Shows;
    ShowsRead(page, 0);
    assert Shows(page)[0..] == Shows(page);
    PreludeReads(Join(Shows(page), " ") + " ET");
    assert Stream(page) == PRELUDE + (Join(Shows(page), " ") + " ET");
  }

  /** All lines of a page are within its media box, and 12 units apart at a font size of 9; in Courier, whose
      characters are 0.6 of the size wide, the longest line ends before the right edge. */
  lemma LinesFitThePage(page: seq<SourceLine>)
    requires |page| <= LINES_PER_PAGE
    ensures forall i :: 0 <= i < |page| ==>
              var shown := ShownPage(page)[i];
              && 0 <= shown.x && 10 * shown.x + 6 * shown.size * |shown.text| <= 10 * 612
              && 0 <= shown.y && shown.y + shown.size <= 792
              && (i > 0 ==> shown.y + shown.size < ShownPage(page)[i - 1].y)
  {
    forall i | 0 <= i < |page|
      ensures |ShownPage(page)[i].text| <= 95
    {
      ShownLineIs(page[i]);
    }
    hide ShownLine;
  }

  lemma ObjectsOfPage(pages: seq<seq<SourceLine>>, i: nat)
    requires i < |pages|
    ensures var objects := Objects(pages);
            && objects[2] == FONT
            && objects[4 + 2 * i - 1] == PageObject(5 + 2 * i)
            && objects[5 + 2 * i - 1] == ContentObject(Stream(pages[i]))
  {
    hide PageObject, ContentObject, Stream, FONT, PageTree;
    var objects := Objects(pages);
    assert objects[4 + 2 * i - 1] == ObjectText(pages, 4 + 2 * i);
    assert objects[5 + 2 * i - 1] == ObjectText(pages, 5 + 2 * i);
    assert objects[2] == ObjectText(pages, 3);
  }

  lemma PageReads(pages: seq<seq<SourceLine>>, i: nat)
    requires i < |pages| && Addressable(Objects(pages))
    ensures ReadPage(File(Objects(pages)), 2, 4 + 2 * i) == Some(ShownPage(pages[i]))
  {
    hide File, ReadPageEntry, ReadStream, IsFont, ReadContent, PageObject, ContentObject, Stream, Objects, ObjectText,
         Addressable, FONT;
    var objects := Objects(pages);
    ObjectsOfPage(pages, i);
    PageEntryReads(objects, 4 + 2 * i, 5 + 2 * i);
    FontReads(objects);
    StreamReads(objects, 5 + 2 * i, Stream(pages[i]));
    ShownStream(pages[i]);
  }

  lemma {:induction false} PagesRead(pages: seq<seq<SourceLine>>, i: nat)
    requires i <= |pages| && Addressable(Objects(pages))
    ensures ReadPages(File(Objects(pages)), 2, PageIds(|pages|)[i..]) == Some(Map(ShownPage, pages[i..]))
    decreases |pages| - i
  {
    hide File, ReadPage, ReadPages, ShownPage, Objects;
    var ids := PageIds(|pages|);
    var doc := File(Objects(pages));
    if i == |pages| {
      NoPagesRead(doc);
      assert ids[i..] == [];
      assert Map(ShownPage, pages[i..]) == [];
    } else {
      PageReads(pages, i);
      PagesRead(pages, i + 1);
      assert ids[i..] == [4 + 2 * i] + ids[i + 1..];
      ReadPagesStep(doc, 4 + 2 * i, ids[i + 1..]);
      assert Map(ShownPage, pages[i..]) == [ShownPage(pages[i])] + Map(ShownPage, pages[i + 1..]);
    }
  }

  lemma NoPagesRead(doc: string)
    ensures ReadPages(doc, 2, []) == Some([])
  {
  }

  lemma ReadPagesStep(doc: string, id: nat, more: seq<nat>)
    requires ReadPage(doc, 2, id).Some? && ReadPages(doc, 2, more).Some?
    ensures ReadPages(doc, 2, [id] + more) == Some([ReadPage(doc, 2, id).value] + ReadPages(doc, 2, more).value)
  {
    hide ReadPage;
    assert ([id] + more)[1..] == more;
  }

  lemma AddressableFileReads(lines: seq<SourceLine>)
    requires Addressable(Objects(Pages(lines)))
    ensures ReadFromCatalog(Pdf(lines)) == Some(Map(ShownPage, Pages(lines)))
  {
    hide File, ReadCatalog, ReadKids, ReadPages, PageTree;
    var pages := Pages(lines);
    var objects := Objects(pages);
    assert objects[0] == ObjectText(pages, 1);
    assert objects[1] == ObjectText(pages, 2);
    CatalogReads(objects);
    KidsRead(objects, PageIds(|pages|));
    PagesRead(pages, 0);
    assert PageIds(|pages|)[0..] == PageIds(|pages|) && pages[0..] == pages;
  }

  lemma {:induction false} BodyStartsAsPdf(objects: seq<string>, k: nat)
    requires k <= |objects|
    ensures "%PDF-1." <= Body(objects, k)
  {
    if k > 0 {
      BodyStartsAsPdf(objects, k - 1);
      hide Wrapped;
    }
  }

  lemma FileStartsAsPdf(objects: seq<string>)
    ensures "%PDF-1." <= File(objects)
  {
    BodyStartsAsPdf(objects, |objects|);
    hide Body, XrefSection, Trailer;
  }

  /** The whole round trip: a reader that follows `startxref`, the table, the references and the
      stream lengths finds page for page the truncated, ASCII-folded lines, exactly when the last
      object starts within the first ten billion bytes. */
  lemma PdfRoundTripsExactly(lines: seq<SourceLine>)
    ensures ReadDocument(Pdf(lines)) == Some(Map(ShownPage, Pages(lines)))
            <==> Addressable(Objects(Pages(lines)))
  {
    hide File, ReadFromCatalog, TableIsRegular, Addressable;
    FileStartsAsPdf(Objects(Pages(lines)));
    TableRegularExactlyWhenAddressable(Objects(Pages(lines)));
    if Addressable(Objects(Pages(lines))) {
      AddressableFileReads(lines);
    }
  }
}
