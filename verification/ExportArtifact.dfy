/** The bounded account export of apps/api/src/account/export.service.ts: NDJSON lines packed into
    database chunks with running totals, and the reader that streams them back. Lines are taken as
    their UTF-8 bytes. */
module ExportArtifact {
  import opened Common
  import opened Sequences
  import opened OffsetPaging

  type Bytes = seq<bv8>

  const CHUNK_BYTES: nat := 512 * 1024
  const ROW_LIMIT: nat := 1024 * 1024
  const NEWLINE: bv8 := 10
  const READ_PAGE: nat := 32

  datatype Chunk = Chunk(sequence: nat, content: Bytes, byteLength: nat)

  datatype ExportError = RowTooLarge | InsertFailed | ReadFailed | CompletionFailed

  datatype Status = PROCESSING | READY | FAILED

  /** How a statement goes: done, refused, or done although the service sees an error. */
  datatype Fate = Done | Refused | DoneUnseen

  datatype Artifact = Artifact(sizeBytes: nat, rowCount: nat, digestOf: Bytes)

  /** One NDJSON line: the encoded row and its newline. */
  function LineOf(json: Bytes): (line: Bytes)
    ensures line != []
  {
    json + [NEWLINE]
  }

  // ------------------------------------------------------------------ greedy packing

  /** Chunks already stored, as groups of lines, and the open group. */
  datatype Packing = Packing(closed: seq<seq<Bytes>>, open: seq<Bytes>)

  const NOTHING: Packing := Packing([], [])

  function Size(group: seq<Bytes>): nat {
    |Flatten(group)|
  }

  function Close(p: Packing): Packing {
    if p.open == [] then p else Packing(p.closed + [p.open], [])
  }

  /** What is stored once the open group was handed to an insert. */
  function AfterInsert(p: Packing, insert: Fate): Packing {
    if insert.Refused? then p else Close(p)
  }

  /** The line no longer fits behind the open group. */
  predicate Overflows(p: Packing, line: Bytes) {
    p.open != [] && Size(p.open) + |line| > CHUNK_BYTES
  }

  function Add(p: Packing, line: Bytes): Packing {
    var q := if Overflows(p, line) then Close(p) else p;
    q.(open := q.open + [line])
  }

  function AddAll(p: Packing, lines: seq<Bytes>): Packing
    decreases |lines|
  {
    if lines == [] then p else AddAll(Add(p, lines[0]), lines[1..])
  }

  /** The groups of lines the chunks of a finished export hold. */
  function Pack(lines: seq<Bytes>): seq<seq<Bytes>> {
    Close(AddAll(NOTHING, lines)).closed
  }

  function ChunkRow(groups: seq<seq<Bytes>>, i: nat): Chunk
    requires i < |groups|
  {
    Chunk(i, Flatten(groups[i]), Size(groups[i]))
  }

  function ChunkRows(groups: seq<seq<Bytes>>): (chunks: seq<Chunk>)
    ensures |chunks| == |groups|
  {
    seq(|groups|, i requires 0 <= i < |groups| => ChunkRow(groups, i))
  }

  predicate WithinRowLimit(lines: seq<Bytes>) {
    forall i :: 0 <= i < |lines| ==> |lines[i]| <= ROW_LIMIT
  }

  predicate NonEmptyLines(lines: seq<Bytes>) {
    forall i :: 0 <= i < |lines| ==> lines[i] != []
  }

  // ------------------------------------------------------------------ the writer

  class ArtifactWriter {
    var chunk: Bytes
    var chunkBytes: nat
    var sequence: nat
    var rowCount: nat
    var sizeBytes: nat
    var hashed: Bytes
    var stored: seq<Chunk>
    ghost var packing: Packing
    ghost var emitted: seq<Bytes>

    /** What the database holds. */
    ghost predicate Kept()
      reads this
    {
      stored == ChunkRows(packing.closed)
    }

    ghost predicate Valid()
      reads this
    {
      && Kept() && NonEmptyLines(packing.open)
      && chunk == Flatten(packing.open) && chunkBytes == |chunk|
      && sequence == |packing.closed|
      && rowCount == |emitted| && hashed == Flatten(emitted) && sizeBytes == |hashed|
    }

    constructor ()
      ensures Valid() && packing == NOTHING && emitted == [] && stored == []
    {
      chunk, chunkBytes, sequence, rowCount, sizeBytes, hashed, stored := [], 0, 0, 0, 0, [], [];
      packing, emitted := NOTHING, [];
    }

    method Flush(insert: Fate) returns (ok: bool)
      requires Valid()
      modifies this
      ensures Kept() && emitted == old(emitted)
      ensures ok <==> insert.Done? || old(packing).open == []
      ensures packing == AfterInsert(old(packing), insert)
      ensures ok ==> Valid() && packing == Close(old(packing))
    {
      OpenIsEmptyWithoutBytes(packing.open);
      if chunkBytes == 0 {
        return true;
      }
      if !insert.Refused? {
        stored := stored + [Chunk(sequence, chunk, chunkBytes)];
        packing := Close(packing);
        assert stored == ChunkRows(packing.closed);
      }
      if !insert.Done? {
        return false;
      }
      sequence := sequence + 1;
      chunk := [];
      chunkBytes := 0;
      ok := true;
    }

    method Emit(line: Bytes, insert: Fate) returns (r: Option<ExportError>)
      requires Valid() && line != []
      modifies this
      ensures Kept() && (r == None ==> Valid())
      ensures r == if |line| > ROW_LIMIT then Some(RowTooLarge)
                   else if Overflows(old(packing), line) && !insert.Done? then Some(InsertFailed)
                   else None
      ensures packing == if r == None then Add(old(packing), line)
                         else if r == Some(InsertFailed) then AfterInsert(old(packing), insert)
                         else old(packing)
      ensures emitted == if r == None then old(emitted) + [line] else old(emitted)
    {
      var bytes := |line|;
      if bytes > ROW_LIMIT {
        return Some(RowTooLarge);
      }
      OpenIsEmptyWithoutBytes(packing.open);
      if chunkBytes != 0 && chunkBytes + bytes > CHUNK_BYTES {
        var ok := Flush(insert);
        if !ok {
          return Some(InsertFailed);
        }
      }
      FlattenSnoc(packing.open, line);
      FlattenSnoc(emitted, line);
      hide Flatten, ChunkRows;
      chunk := chunk + line;
      chunkBytes := chunkBytes + bytes;
      sizeBytes := sizeBytes + bytes;
      rowCount := rowCount + 1;
      hashed := hashed + line;
      packing := packing.(open := packing.open + [line]);
      emitted := emitted + [line];
      r := None;
    }
  }

  lemma OpenIsEmptyWithoutBytes(open: seq<Bytes>)
    requires NonEmptyLines(open)
    ensures Flatten(open) == [] <==> open == []
  {
  }

  function LinesOf(rows: seq<Bytes>): (lines: seq<Bytes>)
    ensures |lines| == |rows| && NonEmptyLines(lines)
  {
    seq(|rows|, i requires 0 <= i < |rows| => LineOf(rows[i]))
  }

  /** How far writing gets: the chunks stored when it ends, and the error that ended it. One insert
      belongs to every line and one to the last flush; a read can fail after the last line. */
  function WriteAll(p: Packing, lines: seq<Bytes>, inserts: seq<Fate>, readOk: bool): (Packing, Option<ExportError>)
    requires |inserts| == |lines| + 1
    decreases |lines|
  {
    if lines == [] then
      if !readOk then (p, Some(ReadFailed))
      else if p.open != [] && !inserts[0].Done? then (AfterInsert(p, inserts[0]), Some(InsertFailed))
      else (Close(p), None)
    else if |lines[0]| > ROW_LIMIT then (p, Some(RowTooLarge))
    else if Overflows(p, lines[0]) && !inserts[0].Done? then (AfterInsert(p, inserts[0]), Some(InsertFailed))
    else WriteAll(Add(p, lines[0]), lines[1..], inserts[1..], readOk)
  }

  lemma WriteOne(p: Packing, lines: seq<Bytes>, inserts: seq<Fate>, readOk: bool, i: nat)
    requires i < |lines| && |inserts| == |lines| + 1
    ensures WriteAll(p, lines[i..], inserts[i..], readOk)
         == if |lines[i]| > ROW_LIMIT then (p, Some(RowTooLarge))
            else if Overflows(p, lines[i]) && !inserts[i].Done? then (AfterInsert(p, inserts[i]), Some(InsertFailed))
            else WriteAll(Add(p, lines[i]), lines[i + 1..], inserts[i + 1..], readOk)
    ensures AddAll(p, lines[i..]) == AddAll(Add(p, lines[i]), lines[i + 1..])
    ensures lines[..i + 1] == lines[..i] + [lines[i]]
  {
    hide Add, Overflows, AfterInsert;
    assert lines[i..][1..] == lines[i + 1..] && inserts[i..][1..] == inserts[i + 1..];
  }

  lemma WriteNone(p: Packing, lines: seq<Bytes>, inserts: seq<Fate>, readOk: bool)
    requires |inserts| == |lines| + 1
    ensures WriteAll(p, lines[|lines|..], inserts[|lines|..], readOk)
         == if !readOk then (p, Some(ReadFailed))
            else if p.open != [] && !inserts[|lines|].Done? then (AfterInsert(p, inserts[|lines|]), Some(InsertFailed))
            else (Close(p), None)
    ensures AddAll(p, lines[|lines|..]) == p && lines[..|lines|] == lines
  {
    hide Close, AfterInsert;
    assert lines[|lines|..] == [] && inserts[|lines|..][0] == inserts[|lines|];
  }

  lemma {:induction false} WriteErrors(p: Packing, lines: seq<Bytes>, inserts: seq<Fate>, readOk: bool)
    requires |inserts| == |lines| + 1
    ensures WriteAll(p, lines, inserts, readOk).1 != Some(CompletionFailed)
    decreases |lines|
  {
    if lines != [] {
      WriteErrors(Add(p, lines[0]), lines[1..], inserts[1..], readOk);
    }
  }

  /** What the database answers besides the inserts: the reads, the completing update, and the two
      statements of the clean-up, whose results the service ignores. */
  datatype Database = Database(readOk: bool, completing: Fate, deleteOk: bool, markOk: bool)

  /** What the service sees go wrong. */
  function FailureOf(rows: seq<Bytes>, inserts: seq<Fate>, db: Database): Option<ExportError>
    requires |inserts| == |rows| + 1
  {
    var failure := WriteAll(NOTHING, LinesOf(rows), inserts, db.readOk).1;
    if failure.Some? then failure else if db.completing.Done? then None else Some(CompletionFailed)
  }

  /** The chunks the artifact is left with. */
  function ChunksLeft(rows: seq<Bytes>, inserts: seq<Fate>, db: Database): seq<Chunk>
    requires |inserts| == |rows| + 1
  {
    if FailureOf(rows, inserts, db).Some? && db.deleteOk then []
    else ChunkRows(WriteAll(NOTHING, LinesOf(rows), inserts, db.readOk).0.closed)
  }

  /** The status the artifact is left with. */
  function StatusLeft(failure: Option<ExportError>, db: Database): Status {
    if failure.Some? && db.markOk then FAILED
    else if failure.None? || (failure == Some(CompletionFailed) && db.completing.DoneUnseen?) then READY
    else PROCESSING
  }

  /** The whole export, with the artifact's chunks and status as it leaves them. */
  method CreateArtifact(rows: seq<Bytes>, inserts: seq<Fate>, db: Database)
    returns (r: Result<Artifact, ExportError>, chunks: seq<Chunk>, status: Status)
    requires |inserts| == |rows| + 1
    ensures match FailureOf(rows, inserts, db)
            case Some(error) => r == Err(error)
            case None => r == Ok(Artifact(|Flatten(LinesOf(rows))|, |rows|, Flatten(LinesOf(rows))))
                         && chunks == ChunkRows(Pack(LinesOf(rows)))
    ensures chunks == ChunksLeft(rows, inserts, db)
    ensures status == StatusLeft(FailureOf(rows, inserts, db), db)
  {
    hide WriteAll, AddAll, Add, Overflows, Flatten, Close, LineOf, ChunkRows, AfterInsert;
    ghost var lines := LinesOf(rows);
    var w := new ArtifactWriter();
    var failure: Option<ExportError> := None;
    var i := 0;
    assert lines[0..] == lines && inserts[0..] == inserts;
    WriteErrors(NOTHING, lines, inserts, db.readOk);
    while i < |rows| && failure.None?
      invariant 0 <= i <= |rows| && fresh(w) && w.Kept()
      invariant failure.None? ==>
                  w.Valid()
                  && WriteAll(w.packing, lines[i..], inserts[i..], db.readOk)
                     == WriteAll(NOTHING, lines, inserts, db.readOk)
                  && AddAll(w.packing, lines[i..]) == AddAll(NOTHING, lines) && w.emitted == lines[..i]
      invariant failure.Some? ==> WriteAll(NOTHING, lines, inserts, db.readOk) == (w.packing, failure)
      decreases |rows| - i, failure.None?
    {
      WriteOne(w.packing, lines, inserts, db.readOk, i);
      failure := w.Emit(LineOf(rows[i]), inserts[i]);
      if failure.None? {
        i := i + 1;
      }
    }
    status := PROCESSING;
    if failure.None? {
      WriteNone(w.packing, lines, inserts, db.readOk);
      if !db.readOk {
        failure := Some(ReadFailed);
      } else {
        var ok := w.Flush(inserts[i]);
        failure := if !ok then Some(InsertFailed) else if !db.completing.Done? then Some(CompletionFailed) else None;
        status := if ok && !db.completing.Refused? then READY else PROCESSING;
      }
    }
    if failure.Some? {
      r := Err(failure.value);
      chunks := if db.deleteOk then [] else w.stored;
      status := if db.markOk then FAILED else status;
    } else {
      r := Ok(Artifact(w.sizeBytes, w.rowCount, w.hashed));
      chunks := w.stored;
    }
  }

  function Contents(chunks: seq<Chunk>): (contents: seq<Bytes>)
    ensures |contents| == |chunks|
  {
    Map((c: Chunk) => c.content, chunks)
  }

  /** The download: 32 chunks at a time until a short page. */
  method StreamArtifact(answers: Answers<Chunk>) returns (written: Bytes, outcome: Outcome)
    ensures var (chunks, end) := Collected(answers, 0, READ_PAGE);
            written == Flatten(Contents(chunks)) && outcome == end
  {
    hide Collected, Flatten, Contents;
    written := [];
    var offset := 0;
    var i := 0;
    ghost var read: seq<Chunk> := [];
    ghost var all := Collected(answers, 0, READ_PAGE);
    NothingWritten();
    assert answers[0..] == answers && [] + all.0 == all.0;
    while true
      invariant 0 <= i <= |answers| && 0 <= offset
      invariant all.0 == read + Collected(answers[i..], offset, READ_PAGE).0
      invariant all.1 == Collected(answers[i..], offset, READ_PAGE).1
      invariant written == Flatten(Contents(read))
      decreases |answers| - i
    {
      NextPage(answers[i..], offset, READ_PAGE);
      if i == |answers| {
        assert read + [] == read;
        return written, Interrupted;
      }
      assert answers[i..][1..] == answers[i + 1..];
      if answers[i].Err? {
        assert read + [] == read;
        return written, Failed(answers[i].error);
      }
      var data := Range(answers[i].value, offset, READ_PAGE);
      ghost var before := read;
      var k := 0;
      assert before + data[..0] == before;
      while k < |data|
        invariant 0 <= k <= |data|
        invariant read == before + data[..k] && written == Flatten(Contents(read))
      {
        ContentsSnoc(read, data[k]);
        assert data[..k + 1] == data[..k] + [data[k]];
        SlideIn(before, data[..k], [data[k]]);
        written := written + data[k].content;
        read := read + [data[k]];
        k := k + 1;
      }
      assert data[..|data|] == data;
      SlideIn(before, data, Collected(answers[i + 1..], offset + READ_PAGE, READ_PAGE).0);
      if |data| < READ_PAGE {
        return written, Complete;
      }
      offset := offset + READ_PAGE;
      i := i + 1;
    }
  }

  lemma NothingWritten()
    ensures Flatten(Contents([])) == []
  {
  }

  lemma ContentsSnoc(chunks: seq<Chunk>, chunk: Chunk)
    ensures Flatten(Contents(chunks + [chunk])) == Flatten(Contents(chunks)) + chunk.content
  {
    assert Contents(chunks + [chunk]) == Contents(chunks) + [chunk.content];
    FlattenSnoc(Contents(chunks), chunk.content);
  }
}
