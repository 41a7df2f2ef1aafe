/** What the export of apps/api/src/account/export.service.ts makes of a table that other requests change
    while it is read page by page. Rows are known by a unique key; a changed row keeps its key. */
module LivePaging {
  import opened Common
  import opened OffsetPaging
  import opened Paging

  /** What may happen to the table between two requests of one read. */
  datatype Env = Env(insertsMayHappen: bool, deletesMayHappen: bool)

  predicate StrictlyAscending(table: seq<Row>) {
    forall i, j :: 0 <= i < j < |table| ==> table[i].key < table[j].key
  }

  function Keys(table: seq<Row>): set<int> {
    set row | row in table :: row.key
  }

  predicate Follows(env: Env, table: seq<Row>, next: seq<Row>) {
    && (!env.insertsMayHappen ==> Keys(next) <= Keys(table))
    && (!env.deletesMayHappen ==> Keys(table) <= Keys(next))
  }

  /** The table at each request of one read, in key order. */
  predicate IsHistory(env: Env, tables: seq<seq<Row>>) {
    && (forall k :: 0 <= k < |tables| ==> StrictlyAscending(tables[k]))
    && (forall k :: 0 <= k < |tables| - 1 ==> Follows(env, tables[k], tables[k + 1]))
  }

  function Answered(tables: seq<seq<Row>>): (answers: Answers<Row>)
    ensures |answers| == |tables|
  {
    seq(|tables|, k requires 0 <= k < |tables| => Ok(tables[k]))
  }

  /** The same loop over such a history. */
  function Read(tables: seq<seq<Row>>, offset: nat, size: nat): (seq<Row>, Outcome) {
    Collected(Answered(tables), offset, size)
  }

  lemma ReadStep(tables: seq<seq<Row>>, offset: nat, size: nat)
    requires size >= 1
    ensures tables == [] ==> Read(tables, offset, size) == ([], Interrupted)
    ensures tables != [] && |tables[0]| < offset + size ==>
              Read(tables, offset, size) == (tables[0][Min(offset, |tables[0]|)..], Complete)
    ensures tables != [] && offset + size <= |tables[0]| ==>
              var rest := Read(tables[1..], offset + size, size);
              Read(tables, offset, size) == (tables[0][offset..offset + size] + rest.0, rest.1)
  {
    NextPage(Answered(tables), offset, size);
    if tables != [] {
      assert Answered(tables)[1..] == Answered(tables[1..]);
      if |tables[0]| < offset + size {
        LastPage(Answered(tables), tables[0], offset, size);
      }
    }
  }

  lemma LaterHistory(env: Env, tables: seq<seq<Row>>)
    requires IsHistory(env, tables) && tables != []
    ensures IsHistory(env, tables[1..]) && StrictlyAscending(tables[0])
    ensures |tables| > 1 ==> Follows(env, tables[0], tables[1]) && StrictlyAscending(tables[1])
  {
    hide Follows, StrictlyAscending;
    var rest := tables[1..];
    assert forall k :: 0 <= k < |rest| ==> rest[k] == tables[k + 1];
  }

  /** Where a key stands in a table. */
  predicate StandsAt(table: seq<Row>, key: int, i: nat) {
    i < |table| && table[i].key == key
  }

  lemma WhereKeyStands(table: seq<Row>, key: int) returns (i: nat)
    requires key in Keys(table)
    ensures StandsAt(table, key, i)
  {
    var row :| row in table && row.key == key;
    i :| 0 <= i < |table| && table[i] == row;
  }

  /** Among more keys no key stands further in front. */
  lemma {:induction false} MoreKeysInFront(few: seq<Row>, many: seq<Row>, key: int, i: nat, j: nat)
    requires StrictlyAscending(few) && StrictlyAscending(many) && Keys(few) <= Keys(many)
    requires StandsAt(few, key, i) && StandsAt(many, key, j)
    ensures i <= j
    decreases i
  {
    if i > 0 {
      var before := few[i - 1].key;
      assert few[i - 1] in few;
      assert before in Keys(many);
      var j' := WhereKeyStands(many, before);
      MoreKeysInFront(few, many, before, i - 1, j');
      assert j' < j;
    }
  }

  // ------------------------------------------------------------------ nothing missed

  /** The key is in the table at every request. */
  predicate Throughout(tables: seq<seq<Row>>, key: int) {
    forall k :: 0 <= k < |tables| ==> key in Keys(tables[k])
  }

  /** A read that completes has emitted every row that was there all the time. */
  ghost predicate NothingMissed(env: Env, size: nat) {
    forall tables, key |
      IsHistory(env, tables) && Throughout(tables, key) && Read(tables, 0, size).1 == Complete ::
      key in Keys(Read(tables, 0, size).0)
  }

  lemma KeysOfBoth(a: seq<Row>, b: seq<Row>)
    ensures Keys(a + b) == Keys(a) + Keys(b)
  {
  }

  lemma KeyInSlice(table: seq<Row>, key: int, i: nat, from: nat, to: nat)
    requires StandsAt(table, key, i) && from <= i < to <= |table|
    ensures key in Keys(table[from..to])
  {
    assert table[from..to][i - from] == table[i];
  }

  /** Without deletes a row that is still to come at one request is still to come at the next. */
  lemma {:induction false} StillToCome(tables: seq<seq<Row>>, key: int, i: nat, offset: nat, size: nat)
    requires size >= 1 && tables != [] && IsHistory(Env(true, false), tables) && Throughout(tables, key)
    requires StandsAt(tables[0], key, i) && i >= offset && Read(tables, offset, size).1 == Complete
    ensures key in Keys(Read(tables, offset, size).0)
    decreases |tables|
  {
    hide Keys, Read;
    var table := tables[0];
    ReadStep(tables, offset, size);
    if |table| < offset + size {
      assert table[offset..] == table[offset..|table|];
      KeyInSlice(table, key, i, offset, |table|);
    } else {
      KeysOfBoth(table[offset..offset + size], Read(tables[1..], offset + size, size).0);
      if i < offset + size {
        KeyInSlice(table, key, i, offset, offset + size);
      } else {
        ReadStep(tables[1..], offset + size, size);
        LaterHistory(Env(true, false), tables);
        var j := WhereKeyStands(tables[1], key);
        MoreKeysInFront(table, tables[1], key, i, j);
        StillToCome(tables[1..], key, j, offset + size, size);
      }
    }
  }

  /** Rows numbered from `first` on. */
  function Numbered(first: int, n: nat): (table: seq<Row>)
    ensures |table| == n && StrictlyAscending(table)
    ensures forall i :: 0 <= i < n ==> table[i].key == first + i
  {
    seq(n, i requires 0 <= i < n => Row(first + i, i))
  }

  lemma NumberedKeys(first: int, n: nat, key: int)
    ensures key in Keys(Numbered(first, n)) <==> first <= key < first + n
  {
    if first <= key < first + n {
      assert Numbered(first, n)[key - first] in Numbered(first, n);
    }
  }

  /** The first row is deleted between two requests: the row behind the boundary is never read. */
  lemma DeletedRowHidesAnother(env: Env, size: nat)
    requires env.deletesMayHappen && size >= 1
    ensures !NothingMissed(env, size)
  {
    hide Read, Keys;
    var before, after := Numbered(0, size + 1), Numbered(1, size);
    var tables := [before, after];
    forall key ensures key in Keys(after) ==> key in Keys(before) {
      NumberedKeys(0, size + 1, key);
      NumberedKeys(1, size, key);
    }
    NumberedKeys(0, size + 1, size);
    NumberedKeys(1, size, size);
    assert IsHistory(env, tables) && Throughout(tables, size);
    ReadStep(tables, 0, size);
    assert tables[1..] == [after];
    ReadStep([after], size, size);
    assert after[size..] == [] && before[0..size] + [] == before[..size];
    assert before[..size] == Numbered(0, size);
    NumberedKeys(0, size, size);
  }

  /** Every row that is in the table at every request is emitted, in all histories, exactly when nothing is
      deleted while the table is read. */
  lemma NothingMissedExactlyWithoutDeletes(env: Env, size: nat)
    requires size >= 1
    ensures NothingMissed(env, size) <==> !env.deletesMayHappen
  {
    if env.deletesMayHappen {
      DeletedRowHidesAnother(env, size);
    } else {
      forall tables, key |
        IsHistory(env, tables) && Throughout(tables, key) && Read(tables, 0, size).1 == Complete
        ensures key in Keys(Read(tables, 0, size).0)
      {
        ReadStep(tables, 0, size);
        assert tables != [];
        var i := WhereKeyStands(tables[0], key);
        StillToCome(tables, key, i, 0, size);
      }
    }
  }

  // ------------------------------------------------------------------ nothing repeated

  /** However the read ends, no row is emitted twice. */
  ghost predicate NothingRepeated(env: Env, size: nat) {
    forall tables | IsHistory(env, tables) :: DistinctKeys(Read(tables, 0, size).0)
  }

  predicate StandsFrom(table: seq<Row>, key: int, from: nat) {
    exists j :: from <= j < |table| && table[j].key == key
  }

  /** All these rows are in the table, at `from` or behind. */
  predicate AllFrom(rows: seq<Row>, table: seq<Row>, from: nat) {
    forall i :: 0 <= i < |rows| ==> StandsFrom(table, rows[i].key, from)
  }

  lemma SliceFrom(table: seq<Row>, from: nat, to: nat)
    requires from <= to <= |table|
    ensures AllFrom(table[from..to], table, from)
  {
    forall i | 0 <= i < to - from
      ensures StandsFrom(table, table[from..to][i].key, from)
    {
      assert table[from + i] == table[from..to][i];
    }
  }

  /** Without inserts what is to come stood no further in front at the request before. */
  lemma FromEarlier(rows: seq<Row>, table: seq<Row>, next: seq<Row>, from: nat)
    requires StrictlyAscending(table) && StrictlyAscending(next) && Keys(next) <= Keys(table)
    requires AllFrom(rows, next, from)
    ensures AllFrom(rows, table, from)
  {
    hide StrictlyAscending;
    forall i | 0 <= i < |rows|
      ensures StandsFrom(table, rows[i].key, from)
    {
      var key := rows[i].key;
      assert StandsFrom(next, key, from);
      var j :| from <= j < |next| && next[j].key == key;
      assert next[j] in next;
      var j' := WhereKeyStands(table, key);
      MoreKeysInFront(next, table, key, j, j');
    }
  }

  lemma PageAndRest(table: seq<Row>, from: nat, to: nat, rest: seq<Row>)
    requires StrictlyAscending(table) && from <= to <= |table|
    requires AllFrom(rest, table, to) && DistinctKeys(rest)
    ensures AllFrom(table[from..to] + rest, table, from) && DistinctKeys(table[from..to] + rest)
  {
    SliceFrom(table, from, to);
    var page := table[from..to];
    forall i, k | 0 <= i < |page| && 0 <= k < |rest|
      ensures page[i].key != rest[k].key
    {
      assert StandsFrom(table, rest[k].key, to);
    }
    forall i | 0 <= i < |rest|
      ensures StandsFrom(table, rest[i].key, from)
    {
      assert StandsFrom(table, rest[i].key, to);
    }
  }

  /** Without inserts everything still to be emitted stands at the offset or behind. */
  lemma {:induction false} OnlyAhead(tables: seq<seq<Row>>, offset: nat, size: nat)
    requires size >= 1 && IsHistory(Env(false, true), tables)
    ensures DistinctKeys(Read(tables, offset, size).0)
    ensures tables != [] ==> AllFrom(Read(tables, offset, size).0, tables[0], offset)
    decreases |tables|
  {
    hide Keys, Read, AllFrom, DistinctKeys, StrictlyAscending;
    ReadStep(tables, offset, size);
    NothingIsFine(if tables == [] then [] else tables[0], offset);
    if tables != [] {
      var table, rest := tables[0], Read(tables[1..], offset + size, size).0;
      LaterHistory(Env(false, true), tables);
      if |table| >= offset + size {
        OnlyAhead(tables[1..], offset + size, size);
        if |tables| > 1 {
          FromEarlier(rest, table, tables[1], offset + size);
        } else {
          ReadStep(tables[1..], offset + size, size);
          NothingIsFine(table, offset + size);
        }
        PageAndRest(table, offset, offset + size, rest);
      } else if offset <= |table| {
        NothingIsFine(table, |table|);
        PageAndRest(table, offset, |table|, []);
        assert table[offset..|table|] + [] == table[offset..];
      } else {
        assert table[|table|..] == [];
        NothingIsFine(table, offset);
      }
    }
  }

  lemma NothingIsFine(table: seq<Row>, from: nat)
    ensures AllFrom([], table, from) && DistinctKeys([])
  {
  }

  /** A row is inserted in front between two requests: the last row before the boundary is read again, although
      it was there all the time. */
  lemma InsertedRowRepeatsAnother(env: Env, size: nat)
    requires env.insertsMayHappen && size >= 1
    ensures !NothingRepeated(env, size)
  {
    hide Read, Keys;
    var before, after := Numbered(0, size), Numbered(-1, size + 1);
    var tables := [before, after, after];
    forall key ensures key in Keys(before) ==> key in Keys(after) {
      NumberedKeys(0, size, key);
      NumberedKeys(-1, size + 1, key);
    }
    assert IsHistory(env, tables);
    ReadStep(tables, 0, size);
    assert tables[1..] == [after, after] && [after, after][1..] == [after];
    ReadStep([after, after], size, size);
    ReadStep([after], size + size, size);
    var emitted := Read(tables, 0, size).0;
    assert emitted[size - 1].key == size - 1 == emitted[size].key;
  }

  /** No row is emitted twice, in all histories, exactly when nothing is inserted while the table is read. */
  lemma NothingRepeatedExactlyWithoutInserts(env: Env, size: nat)
    requires size >= 1
    ensures NothingRepeated(env, size) <==> !env.insertsMayHappen
  {
    if env.insertsMayHappen {
      InsertedRowRepeatsAnother(env, size);
    } else {
      forall tables | IsHistory(env, tables)
        ensures DistinctKeys(Read(tables, 0, size).0)
      {
        OnlyAhead(tables, 0, size);
      }
    }
  }
}
