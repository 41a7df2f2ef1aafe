/** Cursor pages: the list envelope of packages/domain/src/pagination.ts, as the transaction and
    notification lists use it. Rows are ordered by a key, newest first, and a cursor is the key of
    the last row returned. */
module Paging {
  import opened Common

  const PAGE_LIMIT_DEFAULT: nat := 50
  const PAGE_LIMIT_MAX: nat := 200

  /** A caller's limit after numeric conversion; anything else is converted to NaN. */
  function ClampLimit(limit: Number): (r: nat)
    ensures 1 <= r <= PAGE_LIMIT_MAX
    ensures limit.Real? && 1.0 <= limit.value < 201.0 ==> r as real <= limit.value < (r + 1) as real
    ensures !limit.Real? || limit.value < 1.0 ==> r == PAGE_LIMIT_DEFAULT
    ensures limit.Real? && limit.value >= 201.0 ==> r == PAGE_LIMIT_MAX
  {
    if !limit.Real? || limit.value < 1.0 then PAGE_LIMIT_DEFAULT
    else Min(limit.value.Floor, PAGE_LIMIT_MAX)
  }

  datatype Page<T, C> = Page(items: seq<T>, nextCursor: Option<C>, hasMore: bool)

  function ToPage<T, C>(rows: seq<T>, limit: nat, cursorOf: T -> C): Page<T, C> {
    var hasMore := |rows| > limit;
    var items := if hasMore then rows[..limit] else rows;
    Page(items, if hasMore && |items| > 0 then Some(cursorOf(items[|items| - 1])) else None, hasMore)
  }

  datatype Row = Row(key: int, id: nat)

  const CursorOf: Row -> int := (r: Row) => r.key

  /** Newest first; rows may share a key. */
  predicate Sorted(table: seq<Row>) {
    forall i, j :: 0 <= i < j < |table| ==> table[i].key >= table[j].key
  }

  /** The rows strictly past the cursor. */
  function Past(table: seq<Row>, cursor: Option<int>): seq<Row> {
    if cursor.None? || table == [] then table
    else (if table[0].key < cursor.value then [table[0]] else []) + Past(table[1..], cursor)
  }

  /** The rows one request fetches: one more than the page shows. */
  function Fetch(table: seq<Row>, cursor: Option<int>, limit: nat): seq<Row> {
    var past := Past(table, cursor);
    past[..Min(limit + 1, |past|)]
  }

  // ------------------------------------------------------------------ one page

  lemma {:induction false} AllPast(table: seq<Row>, cursor: int)
    requires forall i :: 0 <= i < |table| ==> table[i].key < cursor
    ensures Past(table, Some(cursor)) == table
  {
    if table != [] {
      AllPast(table[1..], cursor);
      assert table == [table[0]] + table[1..];
    }
  }

  lemma {:induction false} PastOfSorted(table: seq<Row>, cursor: int) returns (k: nat)
    requires Sorted(table)
    ensures k <= |table| && Past(table, Some(cursor)) == table[k..]
    ensures forall i :: 0 <= i < |table| ==> (table[i].key < cursor <==> i >= k)
  {
    if table == [] {
      k := 0;
    } else if table[0].key < cursor {
      AllPast(table, cursor);
      k := 0;
    } else {
      var rest := table[1..];
      var k' := PastOfSorted(rest, cursor);
      k := k' + 1;
      assert Past(table, Some(cursor)) == [] + Past(rest, Some(cursor)) == rest[k'..];
      hide Past, Sorted;
      assert rest[k'..] == table[k..];
      assert forall i :: 1 <= i < |table| ==> table[i] == rest[i - 1];
    }
  }

  lemma {:induction false} PastTwice(table: seq<Row>, c: int, cursor: int)
    requires cursor <= c
    ensures Past(Past(table, Some(c)), Some(cursor)) == Past(table, Some(cursor))
  {
    if table != [] {
      PastTwice(table[1..], c, cursor);
      var tail := Past(table[1..], Some(c));
      if table[0].key < c {
        assert Past(table, Some(c)) == [table[0]] + tail && ([table[0]] + tail)[1..] == tail;
      } else {
        assert Past(table, Some(c)) == tail;
        assert Past(table, Some(cursor)) == Past(table[1..], Some(cursor));
      }
    }
  }

  /** A page shows the next rows in order, says whether there are more, and hands out the key of its last row
      as the cursor exactly then. */
  lemma PageTellsWhatFollows(table: seq<Row>, cursor: Option<int>, limit: nat)
    requires limit >= 1
    ensures var past, page := Past(table, cursor), ToPage(Fetch(table, cursor, limit), limit, CursorOf);
            && page.items == past[..Min(limit, |past|)]
            && (page.hasMore <==> |past| > limit)
            && page.nextCursor == if |past| > limit then Some(past[limit - 1].key) else None
  {
    hide Past;
    var past := Past(table, cursor);
    if |past| > limit {
      assert past[..limit + 1][..limit] == past[..limit];
    }
  }

  // ------------------------------------------------------------------ the walk

  /** What a client collects that starts at the rows `rest` and follows next_cursor to the end. */
  function Walk(rest: seq<Row>, limit: nat): seq<Row>
    requires Sorted(rest) && limit >= 1
    decreases |rest|
  {
    var page := ToPage(Fetch(rest, None, limit), limit, CursorOf);
    if page.nextCursor.None? then page.items
    else
      NextRestIsShorter(rest, limit);
      page.items + Walk(Past(rest, page.nextCursor), limit)
  }

  lemma NextRestIsShorter(rest: seq<Row>, limit: nat)
    requires Sorted(rest) && limit >= 1 && |rest| > limit
    ensures var next := Past(rest, Some(rest[limit - 1].key));
            Sorted(next) && |next| <= |rest| - limit
            && (next == rest[limit..] <==> rest[limit - 1].key != rest[limit].key)
    ensures var page := ToPage(Fetch(rest, None, limit), limit, CursorOf);
            page == Page(rest[..limit], Some(rest[limit - 1].key), true)
  {
    var k := PastOfSorted(rest, rest[limit - 1].key);
    assert !(limit - 1 >= k);
    assert rest[..limit + 1][..limit] == rest[..limit];
    if rest[limit - 1].key != rest[limit].key {
      assert limit >= k;
    } else {
      assert |rest[k..]| != |rest[limit..]|;
    }
  }

  /** Whether a tie falls on one of the boundaries between full pages. */
  predicate NoTieAtBoundary(rest: seq<Row>, limit: nat)
    requires limit >= 1
    decreases |rest|
  {
    |rest| <= limit || (rest[limit - 1].key != rest[limit].key && NoTieAtBoundary(rest[limit..], limit))
  }

  /** One page of the walk. */
  lemma WalkStep(rest: seq<Row>, limit: nat)
    requires Sorted(rest) && limit >= 1
    ensures |rest| <= limit ==> Walk(rest, limit) == rest
    ensures |rest| > limit ==>
              var next := Past(rest, Some(rest[limit - 1].key));
              Sorted(next) && |next| <= |rest| - limit && Walk(rest, limit) == rest[..limit] + Walk(next, limit)
  {
    if |rest| > limit {
      NextRestIsShorter(rest, limit);
    } else {
      assert rest[..|rest|] == rest;
    }
  }

  lemma {:induction false} WalkIsNoLonger(rest: seq<Row>, limit: nat)
    requires Sorted(rest) && limit >= 1
    ensures |Walk(rest, limit)| <= |rest|
    decreases |rest|
  {
    hide Walk, Past, Sorted;
    WalkStep(rest, limit);
    if |rest| > limit {
      WalkIsNoLonger(Past(rest, Some(rest[limit - 1].key)), limit);
    }
  }

  lemma SplitEquality<T>(whole: seq<T>, n: nat, tail: seq<T>)
    requires n <= |whole|
    ensures whole[..n] + tail == whole <==> tail == whole[n..]
  {
  }

  /** A walk returns every row once, in order, exactly when no page ends between two rows that share
      a key; the cursor skips the rest of such a tie. */
  lemma {:induction false} WalkCompleteExactlyWithoutBoundaryTies(rest: seq<Row>, limit: nat)
    requires Sorted(rest) && limit >= 1
    ensures Walk(rest, limit) == rest <==> NoTieAtBoundary(rest, limit)
    decreases |rest|
  {
    hide Walk, Past;
    WalkStep(rest, limit);
    if |rest| > limit {
      NextRestIsShorter(rest, limit);
      var next := Past(rest, Some(rest[limit - 1].key));
      SplitEquality(rest, limit, Walk(next, limit));
      if rest[limit - 1].key != rest[limit].key {
        WalkCompleteExactlyWithoutBoundaryTies(rest[limit..], limit);
      } else {
        WalkIsNoLonger(next, limit);
        TiedRestIsShorter(rest, limit);
      }
    }
  }

  lemma TiedRestIsShorter(rest: seq<Row>, limit: nat)
    requires Sorted(rest) && limit >= 1 && |rest| > limit && rest[limit - 1].key == rest[limit].key
    ensures |Past(rest, Some(rest[limit - 1].key))| < |rest[limit..]|
  {
    var k := PastOfSorted(rest, rest[limit - 1].key);
  }

  predicate DistinctKeys(rest: seq<Row>) {
    forall i, j :: 0 <= i < j < |rest| ==> rest[i].key != rest[j].key
  }

  lemma {:induction false} DistinctKeysHaveNoTies(rest: seq<Row>, limit: nat)
    requires limit >= 1 && DistinctKeys(rest)
    ensures NoTieAtBoundary(rest, limit)
    decreases |rest|
  {
    if |rest| > limit {
      DistinctKeysHaveNoTies(rest[limit..], limit);
    }
  }

  // ------------------------------------------------------------------ rows inserted during the walk

  /** Only rows ahead of the first row of the walk were added or removed. */
  predicate SameBehind(start: seq<Row>, table: seq<Row>)
    requires start != []
  {
    Past(table, Some(start[0].key)) == Past(start, Some(start[0].key))
  }

  /** The same walk over a table that may differ at every request; one table per request. */
  function LiveWalk(tables: seq<seq<Row>>, cursor: Option<int>, limit: nat): seq<Row>
    requires limit >= 1
    decreases |tables|
  {
    if tables == [] then []
    else
      var page := ToPage(Fetch(tables[0], cursor, limit), limit, CursorOf);
      page.items + if page.nextCursor.None? then [] else LiveWalk(tables[1..], page.nextCursor, limit)
  }

  /** One request of the live walk, over a table whose unread rows are `rest`. */
  lemma LiveWalkStep(tables: seq<seq<Row>>, cursor: Option<int>, rest: seq<Row>, limit: nat)
    requires tables != [] && Past(tables[0], cursor) == rest && Sorted(rest) && limit >= 1
    ensures |rest| <= limit ==> LiveWalk(tables, cursor, limit) == rest
    ensures |rest| > limit ==>
              LiveWalk(tables, cursor, limit)
              == rest[..limit] + LiveWalk(tables[1..], Some(rest[limit - 1].key), limit)
  {
    assert Past(rest, None) == rest;
    assert Fetch(tables[0], cursor, limit) == Fetch(rest, None, limit);
    hide Past;
    if |rest| > limit {
      NextRestIsShorter(rest, limit);
    } else {
      assert rest[..|rest|] == rest;
    }
  }

  /** A table that agrees with `start` behind its first row agrees behind any later cursor. */
  lemma SameBehindCursor(start: seq<Row>, table: seq<Row>, cursor: int)
    requires start != [] && SameBehind(start, table) && cursor <= start[0].key
    ensures Past(table, Some(cursor)) == Past(start, Some(cursor))
  {
    PastTwice(table, start[0].key, cursor);
    PastTwice(start, start[0].key, cursor);
  }

  lemma OneRequestLess(requests: nat, limit: nat, rows: nat)
    requires requests * limit >= rows && rows > limit
    ensures requests >= 2 && (requests - 1) * limit >= rows - limit
  {
  }

  /** The cursor after a full page is behind the one before it. */
  lemma CursorMovesBack(start: seq<Row>, cursor: int, limit: nat)
    requires Sorted(start) && limit >= 1 && |Past(start, Some(cursor))| > limit
    ensures Sorted(Past(start, Some(cursor)))
    ensures var next := Past(start, Some(cursor))[limit - 1].key;
            next < cursor && Past(start, Some(next)) == Past(Past(start, Some(cursor)), Some(next))
  {
    var k := PastOfSorted(start, cursor);
    PastTwice(start, cursor, Past(start, Some(cursor))[limit - 1].key);
  }

  lemma {:induction false} LiveWalkFrom(start: seq<Row>, tables: seq<seq<Row>>, cursor: int, limit: nat)
    requires Sorted(start) && start != [] && limit >= 1 && cursor <= start[0].key
    requires forall k :: 0 <= k < |tables| ==> SameBehind(start, tables[k])
    requires Sorted(Past(start, Some(cursor)))
    requires |tables| * limit >= |Past(start, Some(cursor))| && tables != []
    ensures LiveWalk(tables, Some(cursor), limit) == Walk(Past(start, Some(cursor)), limit)
    decreases |tables|
  {
    hide Past, Walk, LiveWalk, SameBehind, Sorted;
    var rest := Past(start, Some(cursor));
    SameBehindCursor(start, tables[0], cursor);
    LiveWalkStep(tables, Some(cursor), rest, limit);
    WalkStep(rest, limit);
    if |rest| > limit {
      CursorMovesBack(start, cursor, limit);
      OneRequestLess(|tables|, limit, |rest|);
      LiveWalkFrom(start, tables[1..], rest[limit - 1].key, limit);
    }
  }

  /** Rows that appear ahead of the walk's start while it runs change nothing of what it returns. */
  lemma InsertsAheadAreInvisible(start: seq<Row>, tables: seq<seq<Row>>, limit: nat)
    requires Sorted(start) && limit >= 1
    requires start != [] ==> forall k :: 0 <= k < |tables| ==> SameBehind(start, tables[k])
    requires tables != [] && tables[0] == start && |tables| * limit >= |start|
    ensures LiveWalk(tables, None, limit) == Walk(start, limit)
  {
    hide Walk, LiveWalk, SameBehind;
    LiveWalkStep(tables, None, start, limit);
    WalkStep(start, limit);
    if |start| > limit {
      OneRequestLess(|tables|, limit, |start|);
      LiveWalkFrom(start, tables[1..], start[limit - 1].key, limit);
    }
  }

  /** With distinct keys, any clamped limit and any inserts ahead: every row once, in order. */
  lemma DistinctKeysDrain(start: seq<Row>, tables: seq<seq<Row>>, raw: Number)
    requires Sorted(start) && DistinctKeys(start)
    requires start != [] ==> forall k :: 0 <= k < |tables| ==> SameBehind(start, tables[k])
    requires tables != [] && tables[0] == start && |tables| * ClampLimit(raw) >= |start|
    ensures LiveWalk(tables, None, ClampLimit(raw)) == start
  {
    InsertsAheadAreInvisible(start, tables, ClampLimit(raw));
    DistinctKeysHaveNoTies(start, ClampLimit(raw));
    WalkCompleteExactlyWithoutBoundaryTies(start, ClampLimit(raw));
  }

  // ------------------------------------------------------------------ the notification list

  /** `NotificationsService.list` on the rows it fetched: it pops the extra row itself. */
  function NotificationPage(fetched: seq<Row>, limit: nat): Page<Row, int> {
    var hasMore := |fetched| > limit;
    var items := if hasMore then fetched[..|fetched| - 1] else fetched;
    Page(items, if hasMore && items != [] then Some(items[|items| - 1].key) else None, hasMore)
  }

  /** The notification list pages exactly as the shared envelope does, so the walks above are its walks. */
  lemma NotificationPageIsAPage(table: seq<Row>, cursor: Option<int>, limit: nat)
    ensures var fetched := Fetch(table, cursor, limit);
            NotificationPage(fetched, limit) == ToPage(fetched, limit, CursorOf)
  {
  }
}
