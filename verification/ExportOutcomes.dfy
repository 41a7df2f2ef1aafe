/** How an export of apps/api/src/account/export.service.ts can end, what it leaves in the database, and
    what a download then returns. */
module ExportOutcomes {
  import opened Common
  import opened Sequences
  import opened OffsetPaging
  import opened ExportArtifact
  import opened ExportTheorems

  /** Adding lines never changes a chunk that is closed. */
  lemma {:induction false} ClosedChunksStay(p: Packing, lines: seq<Bytes>)
    ensures p.closed <= AddAll(p, lines).closed <= Close(AddAll(p, lines)).closed
    decreases |lines|
  {
    if lines != [] {
      ClosedChunksStay(Add(p, lines[0]), lines[1..]);
    }
  }

  /** Wherever an export stops, the chunks stored so far are the first chunks of the complete export;
      when it does not stop they are all of them, and every line was within the limit. */
  lemma {:induction false} StoredIsAPrefix(p: Packing, lines: seq<Bytes>, inserts: seq<Fate>, readOk: bool)
    requires |inserts| == |lines| + 1
    ensures var (written, failure) := WriteAll(p, lines, inserts, readOk);
            && written.closed <= Close(AddAll(p, lines)).closed
            && (failure.None? ==> written == Close(AddAll(p, lines)) && WithinRowLimit(lines) && readOk)
    decreases |lines|
  {
    if lines != [] {
      ClosedChunksStay(p, lines);
      ClosedChunksStay(Add(p, lines[0]), lines[1..]);
      if |lines[0]| <= ROW_LIMIT && !(Overflows(p, lines[0]) && !inserts[0].Done?) {
        StoredIsAPrefix(Add(p, lines[0]), lines[1..], inserts[1..], readOk);
        assert forall i :: 1 <= i < |lines| ==> lines[i] == lines[1..][i - 1];
      }
    }
  }

  /** The chunks written are the first chunks of the complete export. */
  lemma WrittenChunks(rows: seq<Bytes>, inserts: seq<Fate>, readOk: bool)
    requires |inserts| == |rows| + 1
    ensures var (written, failure) := WriteAll(NOTHING, LinesOf(rows), inserts, readOk);
            ChunkRows(written.closed) <= ChunkRows(Pack(LinesOf(rows)))
            && (failure.None? ==> ChunkRows(written.closed) == ChunkRows(Pack(LinesOf(rows))))
  {
    StoredIsAPrefix(NOTHING, LinesOf(rows), inserts, readOk);
    var written, all := WriteAll(NOTHING, LinesOf(rows), inserts, readOk).0.closed, Pack(LinesOf(rows));
    hide WriteAll, Pack;
    assert forall i :: 0 <= i < |written| ==> ChunkRow(written, i) == ChunkRow(all, i);
  }

  /** After a failure no chunk is left exactly when the delete succeeds or no chunk was stored: what is left
      is nothing, or the first chunks of the complete export. */
  lemma FailureLeavesNothingExactlyWhenDeleted(rows: seq<Bytes>, inserts: seq<Fate>, db: Database)
    requires |inserts| == |rows| + 1 && FailureOf(rows, inserts, db).Some?
    ensures ChunksLeft(rows, inserts, db) == []
       <==> db.deleteOk || WriteAll(NOTHING, LinesOf(rows), inserts, db.readOk).0.closed == []
    ensures ChunksLeft(rows, inserts, db) <= ChunkRows(Pack(LinesOf(rows)))
  {
    hide WriteAll, Pack;
    WrittenChunks(rows, inserts, db.readOk);
  }

  lemma SomethingToStore(rows: seq<Bytes>)
    requires rows != []
    ensures ChunkRows(Pack(LinesOf(rows))) != []
  {
    PackingIsFaithfulAndGreedy(LinesOf(rows));
    hide Pack, Greedy;
    assert LinesOf(rows)[0] in LinesOf(rows);
  }

  /** Every insert that is made succeeds: one where a line does not fit the open chunk, and one for what
      is open at the end. */
  predicate InsertsSucceed(p: Packing, lines: seq<Bytes>, inserts: seq<Fate>)
    requires |inserts| == |lines| + 1
  {
    && (forall i :: 0 <= i < |lines| && Overflows(AddAll(p, lines[..i]), lines[i]) ==> inserts[i].Done?)
    && (AddAll(p, lines).open != [] ==> inserts[|lines|].Done?)
  }

  lemma InsertsFromFirst(p: Packing, lines: seq<Bytes>, inserts: seq<Fate>)
    requires lines != [] && |inserts| == |lines| + 1
    ensures InsertsSucceed(p, lines, inserts)
       <==> (Overflows(p, lines[0]) ==> inserts[0].Done?) && InsertsSucceed(Add(p, lines[0]), lines[1..], inserts[1..])
  {
    hide Add, Overflows;
    assert lines[..0] == [];
    forall i | 0 <= i < |lines| - 1
      ensures AddAll(p, lines[..i + 1]) == AddAll(Add(p, lines[0]), lines[1..][..i])
    {
      assert lines[..i + 1][1..] == lines[1..][..i];
    }
    if InsertsSucceed(Add(p, lines[0]), lines[1..], inserts[1..]) {
      forall i | 0 < i < |lines| && Overflows(AddAll(p, lines[..i]), lines[i])
        ensures inserts[i].Done?
      {
        assert lines[1..][i - 1] == lines[i] && inserts[1..][i - 1] == inserts[i];
        assert AddAll(p, lines[..(i - 1) + 1]) == AddAll(Add(p, lines[0]), lines[1..][..i - 1]);
      }
    }
    if InsertsSucceed(p, lines, inserts) {
      forall i | 0 <= i < |lines| - 1 && Overflows(AddAll(Add(p, lines[0]), lines[1..][..i]), lines[1..][i])
        ensures inserts[1..][i].Done?
      {
        assert AddAll(p, lines[..i + 1]) == AddAll(Add(p, lines[0]), lines[1..][..i]);
        assert inserts[i + 1].Done?;
      }
    }
  }

  lemma LimitFromFirst(lines: seq<Bytes>)
    requires lines != []
    ensures WithinRowLimit(lines) <==> |lines[0]| <= ROW_LIMIT && WithinRowLimit(lines[1..])
  {
    assert forall i :: 1 <= i < |lines| ==> lines[i] == lines[1..][i - 1];
    if WithinRowLimit(lines) {
      assert forall i :: 0 <= i < |lines[1..]| ==> lines[1..][i] == lines[i + 1];
    }
  }

  /** Writing succeeds exactly when every line is within 1 MiB, the reads succeed, and so does every insert
      that is made. */
  lemma {:induction false} WritesAllExactlyWhenNothingFails(
    p: Packing, lines: seq<Bytes>, inserts: seq<Fate>, readOk: bool)
    requires |inserts| == |lines| + 1
    ensures WriteAll(p, lines, inserts, readOk).1.None?
       <==> WithinRowLimit(lines) && readOk && InsertsSucceed(p, lines, inserts)
    decreases |lines|
  {
    if lines != [] {
      hide Add, Overflows, InsertsSucceed, WithinRowLimit;
      InsertsFromFirst(p, lines, inserts);
      LimitFromFirst(lines);
      WritesAllExactlyWhenNothingFails(Add(p, lines[0]), lines[1..], inserts[1..], readOk);
    }
  }

  /** Every line is within 1 MiB, the reads succeed, and so does every insert that is made. */
  predicate AllWritten(rows: seq<Bytes>, inserts: seq<Fate>, db: Database)
    requires |inserts| == |rows| + 1
  {
    WithinRowLimit(LinesOf(rows)) && db.readOk && InsertsSucceed(NOTHING, LinesOf(rows), inserts)
  }

  /** The service reports success exactly when all is written and the completing update is done and seen; with
      which status it leaves the artifact is decided by that, the update and the marking alone. */
  lemma StatusIsDecided(rows: seq<Bytes>, inserts: seq<Fate>, db: Database)
    requires |inserts| == |rows| + 1
    ensures var failure := FailureOf(rows, inserts, db);
            var status := StatusLeft(failure, db);
            && (failure.None? <==> AllWritten(rows, inserts, db) && db.completing.Done?)
            && (status == READY
                <==> AllWritten(rows, inserts, db)
                     && (db.completing.Done? || (db.completing.DoneUnseen? && !db.markOk)))
            && (status == FAILED <==> !(AllWritten(rows, inserts, db) && db.completing.Done?) && db.markOk)
  {
    hide WriteAll, InsertsSucceed, WithinRowLimit;
    WritesAllExactlyWhenNothingFails(NOTHING, LinesOf(rows), inserts, db.readOk);
    WriteErrors(NOTHING, LinesOf(rows), inserts, db.readOk);
  }

  /** A READY artifact has all chunks of the complete export, except in one case: the completing update was
      done but answered with an error, the clean-up deleted the chunks, and could not mark the artifact. */
  lemma ReadyIsWholeExcept(rows: seq<Bytes>, inserts: seq<Fate>, db: Database)
    requires |inserts| == |rows| + 1 && rows != []
    ensures (StatusLeft(FailureOf(rows, inserts, db), db) == READY ==>
               ChunksLeft(rows, inserts, db) == ChunkRows(Pack(LinesOf(rows))))
       <==> !(AllWritten(rows, inserts, db) && db.completing.DoneUnseen? && db.deleteOk && !db.markOk)
  {
    WriteErrors(NOTHING, LinesOf(rows), inserts, db.readOk);
    WritesAllExactlyWhenNothingFails(NOTHING, LinesOf(rows), inserts, db.readOk);
    hide WriteAll, Pack, ChunkRows, InsertsSucceed, WithinRowLimit;
    WrittenChunks(rows, inserts, db.readOk);
    SomethingToStore(rows);
  }

  /** No error is reported without its cause. */
  lemma {:induction false} ErrorsHaveCauses(p: Packing, lines: seq<Bytes>, inserts: seq<Fate>, readOk: bool)
    requires |inserts| == |lines| + 1
    ensures var error := WriteAll(p, lines, inserts, readOk).1;
            && (error == Some(RowTooLarge) ==> !WithinRowLimit(lines))
            && (error == Some(ReadFailed) ==> WithinRowLimit(lines) && !readOk)
            && (error == Some(InsertFailed) ==> !InsertsSucceed(p, lines, inserts))
    decreases |lines|
  {
    if lines != [] {
      hide Add, Overflows, InsertsSucceed, WithinRowLimit;
      InsertsFromFirst(p, lines, inserts);
      LimitFromFirst(lines);
      if |lines[0]| <= ROW_LIMIT && !(Overflows(p, lines[0]) && !inserts[0].Done?) {
        ErrorsHaveCauses(Add(p, lines[0]), lines[1..], inserts[1..], readOk);
      }
    }
  }

  // ------------------------------------------------------------------ the download

  predicate NonEmptyChunks(chunks: seq<Chunk>) {
    forall i :: 0 <= i < |chunks| ==> chunks[i].content != []
  }

  /** An artifact that expires or is deleted takes all its chunks with it: here at the request for the
      chunks from `at` on, or after the last one. The answer to a download ends normally nevertheless, and
      is the whole export exactly when all chunks had been read by then. */
  lemma DownloadIsWholeExactlyWhenRead(chunks: seq<Chunk>, at: nat, requests: nat)
    requires NonEmptyChunks(chunks) && IsBoundary(at, READ_PAGE) && requests > |chunks|
    ensures var (read, outcome) := Collected(Turning(chunks, [], at, 0, READ_PAGE, requests), 0, READ_PAGE);
            && outcome == Complete && read <= chunks
            && (Flatten(Contents(read)) == Flatten(Contents(chunks)) <==> at >= |chunks|)
  {
    hide Collected, Turning, Contents, Flatten;
    if at > |chunks| {
      NeverTurned(chunks, [], at, 0, READ_PAGE, requests);
      assert chunks[0..] == chunks;
    } else {
      TurningCollects(chunks, [], at, 0, READ_PAGE, requests);
      assert chunks[0..at] + [] == chunks[..at];
      FewerChunksAreShorter(chunks, at);
      assert chunks[..|chunks|] == chunks;
    }
  }

  lemma FewerChunksAreShorter(chunks: seq<Chunk>, n: nat)
    requires NonEmptyChunks(chunks) && n <= |chunks|
    ensures n < |chunks| ==> |Flatten(Contents(chunks[..n]))| < |Flatten(Contents(chunks))|
  {
    if n < |chunks| {
      var front, rest := chunks[..n], chunks[n..];
      assert Contents(chunks) == Contents(front) + Contents(rest);
      FlattenAppend(Contents(front), Contents(rest));
      assert Contents(rest)[0] == chunks[n].content;
    }
  }
}
