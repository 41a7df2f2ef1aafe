/** What the cursor of packages/domain/src/pagination.ts is for: a walk over a list that changes in any way
    between its requests neither misses nor repeats a row, given distinct keys. */
module LiveCursor {
  import opened Common
  import opened Paging

  predicate StrictlyDescending(rows: seq<Row>) {
    forall i, j :: 0 <= i < j < |rows| ==> rows[i].key > rows[j].key
  }

  /** The list at each request: newest first, no two rows with one key, otherwise arbitrary. */
  predicate DistinctThroughout(tables: seq<seq<Row>>) {
    forall k :: 0 <= k < |tables| ==> StrictlyDescending(tables[k])
  }

  predicate Holds(rows: seq<Row>, key: int) {
    exists i :: 0 <= i < |rows| && rows[i].key == key
  }

  predicate HeldThroughout(tables: seq<seq<Row>>, key: int) {
    forall k :: 0 <= k < |tables| ==> Holds(tables[k], key)
  }

  /** The rows are all past the cursor. */
  predicate AllPastCursor(rows: seq<Row>, cursor: Option<int>) {
    cursor.Some? ==> forall i :: 0 <= i < |rows| ==> rows[i].key < cursor.value
  }

  /** The walk comes to a page without a cursor. */
  predicate Ends(tables: seq<seq<Row>>, cursor: Option<int>, limit: nat)
    requires limit >= 1
    decreases |tables|
  {
    tables != []
    && var page := ToPage(Fetch(tables[0], cursor, limit), limit, CursorOf);
       page.nextCursor.None? || Ends(tables[1..], page.nextCursor, limit)
  }

  /** The rows of a table past the cursor. */
  lemma RestPastCursor(table: seq<Row>, cursor: Option<int>, key: int)
    requires StrictlyDescending(table)
    ensures var rest := Past(table, cursor);
            && Sorted(rest) && StrictlyDescending(rest) && AllPastCursor(rest, cursor)
            && (Holds(table, key) && (cursor.Some? ==> key < cursor.value) ==> Holds(rest, key))
  {
    if cursor.Some? {
      var k := PastOfSorted(table, cursor.value);
      if i :| 0 <= i < |table| && table[i].key == key && key < cursor.value {
        assert table[k..][i - k].key == key;
      }
    } else {
      assert Past(table, None) == table;
    }
  }

  /** One request of the walk. */
  lemma Request(tables: seq<seq<Row>>, cursor: Option<int>, rest: seq<Row>, limit: nat)
    requires tables != [] && Past(tables[0], cursor) == rest && Sorted(rest) && limit >= 1
    ensures |rest| <= limit ==> Ends(tables, cursor, limit)
    ensures |rest| > limit ==>
              (Ends(tables, cursor, limit) <==> Ends(tables[1..], Some(rest[limit - 1].key), limit))
  {
    assert Past(rest, None) == rest;
    assert Fetch(tables[0], cursor, limit) == Fetch(rest, None, limit);
    hide Past;
    if |rest| > limit {
      NextRestIsShorter(rest, limit);
    }
  }

  lemma HoldsInEither(a: seq<Row>, b: seq<Row>, key: int)
    requires Holds(a, key) || Holds(b, key)
    ensures Holds(a + b, key)
  {
    if i :| 0 <= i < |a| && a[i].key == key {
      assert (a + b)[i].key == key;
    }
    if i :| 0 <= i < |b| && b[i].key == key {
      assert (a + b)[|a| + i].key == key;
    }
  }

  /** A row past the last one shown is past the cursor that is handed out. */
  lemma ShownOrPast(rest: seq<Row>, limit: nat, key: int)
    requires StrictlyDescending(rest) && 1 <= limit < |rest| && Holds(rest, key)
    ensures Holds(rest[..limit], key) || key < rest[limit - 1].key
  {
    var i :| 0 <= i < |rest| && rest[i].key == key;
    if i < limit {
      assert rest[..limit][i].key == key;
    }
  }

  /** Every row that is in the list at all requests is returned by a walk that comes to its end, whatever is
      inserted, deleted or changed between the requests. */
  lemma {:induction false} NothingMissed(tables: seq<seq<Row>>, cursor: Option<int>, limit: nat, key: int)
    requires DistinctThroughout(tables) && limit >= 1 && Ends(tables, cursor, limit)
    requires HeldThroughout(tables, key) && (cursor.Some? ==> key < cursor.value)
    ensures Holds(LiveWalk(tables, cursor, limit), key)
    decreases |tables|
  {
    hide LiveWalk, Past, StrictlyDescending, Holds, Sorted;
    assert tables != [];
    hide Ends;
    var rest := Past(tables[0], cursor);
    RestPastCursor(tables[0], cursor, key);
    LiveWalkStep(tables, cursor, rest, limit);
    Request(tables, cursor, rest, limit);
    if |rest| > limit {
      ShownOrPast(rest, limit, key);
      var next := Some(rest[limit - 1].key);
      if !Holds(rest[..limit], key) {
        NothingMissed(tables[1..], next, limit, key);
      }
      HoldsInEither(rest[..limit], LiveWalk(tables[1..], next, limit), key);
    }
  }

  lemma PageThenPast(rest: seq<Row>, limit: nat, more: seq<Row>, cursor: Option<int>)
    requires StrictlyDescending(rest) && AllPastCursor(rest, cursor) && 1 <= limit <= |rest|
    requires StrictlyDescending(more) && AllPastCursor(more, Some(rest[limit - 1].key))
    ensures StrictlyDescending(rest[..limit] + more) && AllPastCursor(rest[..limit] + more, cursor)
  {
  }

  /** What a walk returns is newest first and without repetition, whatever happens between its requests. */
  lemma {:induction false} NothingRepeated(tables: seq<seq<Row>>, cursor: Option<int>, limit: nat)
    requires DistinctThroughout(tables) && limit >= 1
    ensures StrictlyDescending(LiveWalk(tables, cursor, limit))
    ensures AllPastCursor(LiveWalk(tables, cursor, limit), cursor)
    decreases |tables|
  {
    if tables != [] {
      hide LiveWalk, Past, StrictlyDescending, Sorted, AllPastCursor;
      var rest := Past(tables[0], cursor);
      RestPastCursor(tables[0], cursor, 0);
      LiveWalkStep(tables, cursor, rest, limit);
      if |rest| > limit {
        var next := Some(rest[limit - 1].key);
        NothingRepeated(tables[1..], next, limit);
        PageThenPast(rest, limit, LiveWalk(tables[1..], next, limit), cursor);
      }
    }
  }
}
