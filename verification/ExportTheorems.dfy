/** What the greedy packing of an export guarantees. */
module ExportTheorems {
  import opened Common
  import opened Sequences
  import opened ExportArtifact

  /** A group fits a chunk, or is a single line that fits nothing smaller. */
  predicate GroupOk(group: seq<Bytes>) {
    group != [] && (Size(group) <= CHUNK_BYTES || |group| == 1)
  }

  /** The next line did not fit behind the group. */
  predicate Full(group: seq<Bytes>, line: Bytes) {
    Size(group) + |line| > CHUNK_BYTES
  }

  /** The next group's first line did not fit either. */
  predicate NoRoom(group: seq<Bytes>, next: seq<Bytes>) {
    next != [] && Full(group, next[0])
  }

  predicate Greedy(groups: seq<seq<Bytes>>) {
    && (forall i :: 0 <= i < |groups| ==> GroupOk(groups[i]))
    && (forall i :: 0 <= i < |groups| - 1 ==> NoRoom(groups[i], groups[i + 1]))
  }

  predicate PackedSoFar(p: Packing, lines: seq<Bytes>) {
    && (p.open == [] ==> p.closed == [])
    && Greedy(Close(p).closed)
    && Flatten(Close(p).closed) == lines
  }

  lemma SizeOfOne(line: Bytes)
    ensures Size([line]) == |line|
  {
    assert Flatten([line]) == line + Flatten<bv8>([]);
  }

  /** Another line behind the last group leaves the earlier groups as greedy as they were. */
  lemma GrownLastGroup(closed: seq<seq<Bytes>>, open: seq<Bytes>, line: Bytes)
    requires Greedy(closed + [open]) && open != [] && GroupOk(open + [line])
    ensures Greedy(closed + [open + [line]])
  {
    hide GroupOk, Full;
    var before, after := closed + [open], closed + [open + [line]];
    forall i | 0 <= i < |after|
      ensures GroupOk(after[i])
    {
      assert i < |closed| ==> after[i] == before[i];
    }
    forall i | 0 <= i < |after| - 1
      ensures NoRoom(after[i], after[i + 1])
    {
      assert NoRoom(before[i], before[i + 1]);
      assert after[i] == before[i];
      if i + 1 < |closed| {
        assert after[i + 1] == before[i + 1];
      } else {
        assert after[i + 1] == open + [line] && before[i + 1] == open;
      }
    }
  }

  /** A new group may start where the last one is full. */
  lemma NewLastGroup(closed: seq<seq<Bytes>>, open: seq<Bytes>, line: Bytes)
    requires Greedy(closed + [open]) && Full(open, line) && GroupOk([line])
    ensures Greedy(closed + [open] + [[line]])
  {
  }

  lemma AddKeepsPacked(p: Packing, lines: seq<Bytes>, line: Bytes)
    requires PackedSoFar(p, lines)
    ensures PackedSoFar(Add(p, line), lines + [line])
  {
    FlattenSnoc(p.open, line);
    SizeOfOne(line);
    if p.open == [] {
      assert [] + [line] == [line] && Close(Add(p, line)).closed == [[line]];
      assert Flatten([[line]]) == [line] + Flatten<Bytes>([]);
    } else if Full(p.open, line) {
      FlattenSnoc(p.closed + [p.open], [line]);
      NewLastGroup(p.closed, p.open, line);
      hide Greedy, Flatten, GroupOk;
      assert [] + [line] == [line];
    } else {
      FlattenSnoc(p.closed, p.open);
      FlattenSnoc(p.closed, p.open + [line]);
      GrownLastGroup(p.closed, p.open, line);
      hide Greedy, GroupOk;
      assert Flatten(p.closed) + (p.open + [line]) == Flatten(p.closed) + p.open + [line];
    }
  }

  lemma {:induction false} AddAllKeepsPacked(p: Packing, done: seq<Bytes>, lines: seq<Bytes>)
    requires PackedSoFar(p, done)
    ensures PackedSoFar(AddAll(p, lines), done + lines)
    decreases |lines|
  {
    hide PackedSoFar, Add;
    if lines == [] {
      assert done + lines == done;
    } else {
      AddKeepsPacked(p, done, lines[0]);
      AddAllKeepsPacked(Add(p, lines[0]), done + [lines[0]], lines[1..]);
      assert done + [lines[0]] + lines[1..] == done + lines;
    }
  }

  /** Chunks hold the lines in order with nothing lost; each is within 512 KiB or is one line; and
      no two neighbours would have fitted together. */
  lemma PackingIsFaithfulAndGreedy(lines: seq<Bytes>)
    ensures Flatten(Pack(lines)) == lines && Greedy(Pack(lines))
  {
    AddAllKeepsPacked(Packing([], []), [], lines);
    assert [] + lines == lines;
  }

  // ------------------------------------------------------------------ stored bytes

  lemma {:induction false} FlattenTwice(groups: seq<seq<Bytes>>)
    ensures Flatten(Map((g: seq<Bytes>) => Flatten(g), groups)) == Flatten(Flatten(groups))
  {
    var f := (g: seq<Bytes>) => Flatten(g);
    if groups != [] {
      FlattenTwice(groups[1..]);
      assert Map(f, groups)[1..] == Map(f, groups[1..]);
      FlattenAppend(groups[0], Flatten(groups[1..]));
    } else {
      assert Map(f, groups) == [];
    }
  }

  /** What is stored, read in sequence order, is exactly the text that was hashed and counted. */
  lemma StoredBytesAreTheEmittedText(lines: seq<Bytes>)
    ensures var chunks := ChunkRows(Pack(lines));
            && Flatten(Map((c: Chunk) => c.content, chunks)) == Flatten(lines)
            && (forall i :: 0 <= i < |chunks| ==> chunks[i].sequence == i && chunks[i].byteLength == |chunks[i].content|)
  {
    var groups := Pack(lines);
    PackingIsFaithfulAndGreedy(lines);
    FlattenTwice(groups);
    assert Map((c: Chunk) => c.content, ChunkRows(groups)) == Map((g: seq<Bytes>) => Flatten(g), groups);
  }

  lemma {:induction false} LineWithinGroup(group: seq<Bytes>, line: Bytes)
    requires line in group
    ensures |line| <= Size(group)
  {
    if line != group[0] {
      assert line in group[1..];
      LineWithinGroup(group[1..], line);
    }
  }

  lemma {:induction false} LineInSomeGroup(groups: seq<seq<Bytes>>, line: Bytes) returns (i: nat)
    requires line in Flatten(groups)
    ensures i < |groups| && line in groups[i]
  {
    if line in groups[0] {
      i := 0;
    } else {
      var k := LineInSomeGroup(groups[1..], line);
      i := k + 1;
    }
  }

  lemma {:induction false} GroupLineInAll(groups: seq<seq<Bytes>>, i: nat, line: Bytes)
    requires i < |groups| && line in groups[i]
    ensures line in Flatten(groups)
  {
    if i > 0 {
      GroupLineInAll(groups[1..], i - 1, line);
    }
  }

  /** The header's 512 KiB bound on every chunk holds exactly when every line is within it. */
  lemma ChunksAreBoundedExactlyWhenLinesAre(lines: seq<Bytes>)
    ensures (forall i :: 0 <= i < |Pack(lines)| ==> ChunkRow(Pack(lines), i).byteLength <= CHUNK_BYTES)
            <==> (forall line :: line in lines ==> |line| <= CHUNK_BYTES)
  {
    PackingIsFaithfulAndGreedy(lines);
    var groups := Pack(lines);
    hide Pack, Size, Flatten;
    forall line | line in lines
      ensures exists i :: 0 <= i < |groups| && |line| <= ChunkRow(groups, i).byteLength
    {
      var i := LineInSomeGroup(groups, line);
      LineWithinGroup(groups[i], line);
      assert |line| <= ChunkRow(groups, i).byteLength;
    }
    forall i | 0 <= i < |groups| && ChunkRow(groups, i).byteLength > CHUNK_BYTES
      ensures exists line :: line in lines && |line| > CHUNK_BYTES
    {
      assert GroupOk(groups[i]);
      var line := groups[i][0];
      assert groups[i] == [line];
      SizeOfOne(line);
      GroupLineInAll(groups, i, line);
    }
  }

  // ------------------------------------------------------------------ how many chunks

  function TotalSize(groups: seq<seq<Bytes>>): nat {
    if groups == [] then 0 else Size(groups[0]) + TotalSize(groups[1..])
  }

  lemma {:induction false} TotalSizeIsTextSize(groups: seq<seq<Bytes>>)
    ensures TotalSize(groups) == Size(Flatten(groups))
  {
    if groups != [] {
      TotalSizeIsTextSize(groups[1..]);
      FlattenAppend(groups[0], Flatten(groups[1..]));
    }
  }

  /** Any two neighbouring chunks together exceed 512 KiB, so n chunks need more than
      floor(n / 2) * 512 KiB of text once there are two. */
  lemma {:induction false} ChunkCountIsBoundedBySize(groups: seq<seq<Bytes>>)
    requires Greedy(groups)
    ensures |groups| >= 2 ==> TotalSize(groups) > (|groups| / 2) * CHUNK_BYTES
    decreases |groups|
  {
    if |groups| >= 2 {
      assert NoRoom(groups[0], groups[1]);
      LineWithinGroup(groups[1], groups[1][0]);
      assert Size(groups[0]) + Size(groups[1]) > CHUNK_BYTES;
      hide Size;
      assert groups[1..][1..] == groups[2..];
      assert TotalSize(groups) == Size(groups[0]) + (Size(groups[1]) + TotalSize(groups[2..]));
      assert Greedy(groups[2..]) by { GreedyTail(groups); }
      ChunkCountIsBoundedBySize(groups[2..]);
      assert |groups[2..]| / 2 == |groups| / 2 - 1;
    }
  }

  /** The same for a finished export, in terms of its text. */
  lemma ChunkCountBound(lines: seq<Bytes>)
    ensures |Pack(lines)| >= 2 ==> |Flatten(lines)| > (|Pack(lines)| / 2) * CHUNK_BYTES
  {
    PackingIsFaithfulAndGreedy(lines);
    hide Pack, Greedy;
    ChunkCountIsBoundedBySize(Pack(lines));
    TotalSizeIsTextSize(Pack(lines));
  }

  lemma GreedyTail(groups: seq<seq<Bytes>>)
    requires Greedy(groups) && |groups| >= 2
    ensures Greedy(groups[2..])
  {
  }

  // ------------------------------------------------------------------ fewest chunks

  /** How many lines the first k groups hold. */
  function LinesIn(groups: seq<seq<Bytes>>, k: nat): nat
    requires k <= |groups|
  {
    |Flatten(groups[..k])|
  }

  lemma GroupIsSlice(groups: seq<seq<Bytes>>, k: nat)
    requires k < |groups|
    ensures LinesIn(groups, k) + |groups[k]| == LinesIn(groups, k + 1) <= |Flatten(groups)|
    ensures Flatten(groups)[LinesIn(groups, k)..LinesIn(groups, k + 1)] == groups[k]
  {
    assert groups[..k + 1] == groups[..k] + [groups[k]];
    FlattenSnoc(groups[..k], groups[k]);
    assert groups == groups[..k + 1] + groups[k + 1..];
    FlattenAppend(groups[..k + 1], groups[k + 1..]);
    var front := Flatten(groups[..k]);
    assert Flatten(groups) == front + groups[k] + Flatten(groups[k + 1..]);
    hide Flatten;
  }

  lemma SizeOfSlices(lines: seq<Bytes>, a: nat, b: nat, c: nat, d: nat)
    requires a <= b <= c <= d <= |lines|
    ensures Size(lines[b..c]) <= Size(lines[a..d])
  {
    assert lines[a..d] == lines[a..b] + (lines[b..c] + lines[c..d]);
    FlattenAppend(lines[a..b], lines[b..c] + lines[c..d]);
    FlattenAppend(lines[b..c], lines[c..d]);

  }

  /** A group that starts no later and ends later than a greedy group overflows. */
  lemma LongerGroupOverflows(lines: seq<Bytes>, a: nat, b: nat, c: nat, d: nat)
    requires a <= b < c < d <= |lines|
    requires Full(lines[b..c], lines[c])
    ensures !GroupOk(lines[a..d])
  {
    SizeOfSlices(lines, a, b, c + 1, d);
    FlattenSnoc(lines[b..c], lines[c]);
    assert lines[b..c + 1] == lines[b..c] + [lines[c]];
  }

  predicate Partition(parts: seq<seq<Bytes>>, lines: seq<Bytes>) {
    Flatten(parts) == lines && forall i :: 0 <= i < |parts| ==> GroupOk(parts[i])
  }

  lemma NextLineDidNotFit(groups: seq<seq<Bytes>>, k: nat)
    requires Greedy(groups) && 1 <= k <= |groups| && LinesIn(groups, k) < |Flatten(groups)|
    ensures LinesIn(groups, k - 1) < LinesIn(groups, k)
    ensures Full(Flatten(groups)[LinesIn(groups, k - 1)..LinesIn(groups, k)], Flatten(groups)[LinesIn(groups, k)])
  {
    hide Size;
    assert groups[..|groups|] == groups;
    if k < |groups| {
      GroupIsSlice(groups, k - 1);
      GroupIsSlice(groups, k);
      assert GroupOk(groups[k - 1]) && GroupOk(groups[k]);
      assert NoRoom(groups[k - 1], groups[k]);
      hide Flatten, LinesIn, Full;
      assert groups[k][0] == Flatten(groups)[LinesIn(groups, k)];
    }
  }

  /** After any number of groups, the greedy packing has placed at least as many lines. */
  lemma {:induction false} GreedyStaysAhead(groups: seq<seq<Bytes>>, parts: seq<seq<Bytes>>, k: nat)
    requires Greedy(groups) && Partition(parts, Flatten(groups)) && k <= |groups| && k <= |parts|
    ensures LinesIn(parts, k) <= LinesIn(groups, k)
  {
    hide Size;
    if k > 0 {
      GreedyStaysAhead(groups, parts, k - 1);
      GroupIsSlice(groups, k - 1);
      GroupIsSlice(parts, k - 1);
      var lines := Flatten(groups);
      var a, b, c, d := LinesIn(parts, k - 1), LinesIn(groups, k - 1), LinesIn(groups, k), LinesIn(parts, k);
      assert GroupOk(groups[k - 1]) && GroupOk(parts[k - 1]);
      if d > c {
        NextLineDidNotFit(groups, k);
        hide Flatten, LinesIn, Full, Greedy, Size;
        LongerGroupOverflows(lines, a, b, c, d);
      }
    }
  }

  lemma SomeLinesRemain(groups: seq<seq<Bytes>>, m: nat)
    requires Greedy(groups) && m < |groups|
    ensures LinesIn(groups, m) < |Flatten(groups)|
  {
    GroupIsSlice(groups, m);
    assert GroupOk(groups[m]);
  }

  /** No way of cutting the lines into consecutive chunks under the same rule needs fewer chunks. */
  lemma PackingUsesFewestChunks(lines: seq<Bytes>, parts: seq<seq<Bytes>>)
    requires Partition(parts, lines)
    ensures |Pack(lines)| <= |parts|
  {
    var groups := Pack(lines);
    PackingIsFaithfulAndGreedy(lines);
    hide Pack, Size;
    var m := Min(|parts|, |groups|);
    GreedyStaysAhead(groups, parts, m);
    assert parts[..|parts|] == parts;
    if m < |groups| {
      SomeLinesRemain(groups, m);
    }
  }

  // ------------------------------------------------------------------ reading the export back

  /** A reader of NDJSON: the pieces between newlines. */
  function SplitLines(text: Bytes): seq<Bytes> {
    if text == [] then []
    else
      var rest := SplitLines(text[1..]);
      if text[0] == NEWLINE then [[]] + rest
      else if rest == [] then [[text[0]]]
      else [[text[0]] + rest[0]] + rest[1..]
  }

  predicate OneLine(json: Bytes) {
    NEWLINE !in json
  }

  lemma {:induction false} PiecesAreOneLine(text: Bytes)
    ensures forall i :: 0 <= i < |SplitLines(text)| ==> OneLine(SplitLines(text)[i])
  {
    if text != [] {
      PiecesAreOneLine(text[1..]);
    }
  }

  lemma {:induction false} SplitsFirst(json: Bytes, rest: Bytes)
    requires OneLine(json)
    ensures SplitLines(json + [NEWLINE] + rest) == [json] + SplitLines(rest)
  {
    var text := json + [NEWLINE] + rest;
    if json == [] {
      assert text[1..] == rest;
    } else {
      SplitsFirst(json[1..], rest);
      assert text[1..] == json[1..] + [NEWLINE] + rest;
      assert json == [json[0]] + json[1..];
    }
  }

  lemma {:induction false} LinesSplit(rows: seq<Bytes>)
    requires forall i :: 0 <= i < |rows| ==> OneLine(rows[i])
    ensures SplitLines(Flatten(LinesOf(rows))) == rows
  {
    if rows == [] {
      assert Flatten(LinesOf(rows)) == [];
    } else {
      LinesSplit(rows[1..]);
      assert LinesOf(rows)[1..] == LinesOf(rows[1..]);
      SplitsFirst(rows[0], Flatten(LinesOf(rows[1..])));
      assert rows == [rows[0]] + rows[1..];
    }
  }

  /** Downloading the stored chunks and splitting at newlines gives the exported rows back, one by one
      and in order, exactly when no encoded row contains a newline byte; JSON text has none. */
  lemma ExportReadsBackExactly(rows: seq<Bytes>)
    ensures SplitLines(Flatten(Map((c: Chunk) => c.content, ChunkRows(Pack(LinesOf(rows)))))) == rows
       <==> forall i :: 0 <= i < |rows| ==> OneLine(rows[i])
  {
    StoredBytesAreTheEmittedText(LinesOf(rows));
    hide OneLine, SplitLines, Pack, LinesOf;
    PiecesAreOneLine(Flatten(LinesOf(rows)));
    if forall i :: 0 <= i < |rows| ==> OneLine(rows[i]) {
      LinesSplit(rows);
    }
  }

  // ------------------------------------------------------------------ failed exports
}
