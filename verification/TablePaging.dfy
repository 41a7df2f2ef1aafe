/** How the data export of apps/api/src/account/export.service.ts reads a whole table by offset pages:
    what it emits of a table that stays as it is, and of one that changes between the requests. */
module TablePaging {
  import opened Common
  import opened OffsetPaging
  import opened Paging

  const PAGE_SIZE: nat := 500

  /** The read ends with a short page or an error; without a further answer it is interrupted. */
  method EmitTable(answers: Answers<Row>) returns (emitted: seq<Row>, outcome: Outcome)
    ensures (emitted, outcome) == Collected(answers, 0, PAGE_SIZE)
  {
    hide Collected;
    var offset := 0;
    var i := 0;
    emitted := [];
    ghost var all := Collected(answers, 0, PAGE_SIZE);
    assert answers[0..] == answers && [] + all.0 == all.0;
    while true
      invariant 0 <= i <= |answers| && 0 <= offset
      invariant all.0 == emitted + Collected(answers[i..], offset, PAGE_SIZE).0
      invariant all.1 == Collected(answers[i..], offset, PAGE_SIZE).1
      decreases |answers| - i
    {
      NextPage(answers[i..], offset, PAGE_SIZE);
      if i == |answers| {
        assert emitted + [] == emitted;
        return emitted, Interrupted;
      }
      assert answers[i..][1..] == answers[i + 1..];
      if answers[i].Err? {
        assert emitted + [] == emitted;
        return emitted, Failed(answers[i].error);
      }
      var page := Range(answers[i].value, offset, PAGE_SIZE);
      SlideIn(emitted, page, Collected(answers[i + 1..], offset + PAGE_SIZE, PAGE_SIZE).0);
      emitted := emitted + page;
      if |page| < PAGE_SIZE {
        return emitted, Complete;
      }
      offset := offset + PAGE_SIZE;
      i := i + 1;
    }
  }

  // ------------------------------------------------------------------ a table that stays as it is

  predicate Ascending(order: seq<Row>) {
    forall i, j :: 0 <= i < j < |order| ==> order[i].key <= order[j].key
  }

  /** One of the orders in which the database may answer a sorted query over `table`. */
  predicate SortedAnswer(order: seq<Row>, table: seq<Row>) {
    Ascending(order) && multiset(order) == multiset(table)
  }

  lemma SameLength(order: seq<Row>, table: seq<Row>)
    requires multiset(order) == multiset(table)
    ensures |order| == |table|
  {
    assert |multiset(order)| == |order| && |multiset(table)| == |table|;
  }

  /** Every answer is a sorted order of the one table, or an error. */
  predicate AnswersFor(answers: Answers<Row>, table: seq<Row>) {
    forall k :: 0 <= k < |answers| ==> answers[k].Ok? ==> SortedAnswer(answers[k].value, table)
  }

  /** No two rows that share a key lie on either side of a page boundary. */
  predicate NoTieAcrossPages(order: seq<Row>, size: nat)
    requires size >= 1
  {
    forall offset: nat :: 0 < offset < |order| && IsBoundary(offset, size) ==> order[offset - 1].key != order[offset].key
  }

  function UpTo(order: seq<Row>, key: int): seq<Row> {
    if order == [] then []
    else (if order[0].key <= key then [order[0]] else []) + UpTo(order[1..], key)
  }

  lemma {:induction false} UpToCounts(order: seq<Row>, key: int, row: Row)
    ensures multiset(UpTo(order, key))[row] == if row.key <= key then multiset(order)[row] else 0
  {
    if order != [] {
      assert order == [order[0]] + order[1..];
      UpToCounts(order[1..], key, row);
    }
  }

  lemma {:induction false} UpToIsPrefix(order: seq<Row>, key: int, n: nat)
    requires Ascending(order) && n <= |order|
    requires forall i :: 0 <= i < |order| ==> (order[i].key <= key <==> i < n)
    ensures UpTo(order, key) == order[..n]
  {
    if order != [] {
      if n == 0 {
        UpToIsPrefix(order[1..], key, 0);
      } else {
        UpToIsPrefix(order[1..], key, n - 1);
        assert order[..n] == [order[0]] + order[1..][..n - 1];
      }
    }
  }

  /** In a sorted order the rows up to a key form a prefix. */
  lemma {:induction false} Cut(order: seq<Row>, key: int) returns (n: nat)
    requires Ascending(order)
    ensures n <= |order| && forall i :: 0 <= i < |order| ==> (order[i].key <= key <==> i < n)
  {
    if order == [] || order[0].key > key {
      n := 0;
    } else {
      var m := Cut(order[1..], key);
      n := m + 1;
      assert forall i :: 1 <= i < |order| ==> order[i] == order[1..][i - 1];
    }
  }

  /** Where the keys differ, every sorted answer has the same rows before the cut. */
  lemma SamePrefix(table: seq<Row>, order: seq<Row>, n: nat)
    requires Ascending(table) && SortedAnswer(order, table) && n <= |table|
    requires 0 < n < |table| ==> table[n - 1].key != table[n].key
    ensures |order| == |table| && multiset(order[..n]) == multiset(table[..n])
  {
    SameLength(order, table);
    if n == 0 {
    } else if n == |table| {
      assert order[..n] == order && table[..n] == table;
    } else {
      var key := table[n - 1].key;
      UpToIsPrefix(table, key, n);
      var m := Cut(order, key);
      UpToIsPrefix(order, key, m);
      forall row ensures multiset(UpTo(order, key))[row] == multiset(UpTo(table, key))[row] {
        UpToCounts(order, key, row);
        UpToCounts(table, key, row);
      }
      assert multiset(order[..m]) == multiset(table[..n]);
      assert |multiset(order[..m])| == m && |multiset(table[..n])| == n;
    }
  }

  lemma SameSlice(table: seq<Row>, order: seq<Row>, from: nat, to: nat)
    requires from <= to <= |table| == |order|
    requires multiset(order[..from]) == multiset(table[..from]) && multiset(order[..to]) == multiset(table[..to])
    ensures multiset(order[from..to]) == multiset(table[from..to])
  {
    assert order[..to] == order[..from] + order[from..to];
    assert table[..to] == table[..from] + table[from..to];
    calc {
      multiset(order[from..to]);
      multiset(order[..to]) - multiset(order[..from]);
      multiset(table[from..to]);
    }
  }

  /** One page holds the same rows as the page of any sorted answer. */
  lemma PageHolds(table: seq<Row>, order: seq<Row>, offset: nat, size: nat)
    requires Ascending(table) && SortedAnswer(order, table) && size >= 1 && NoTieAcrossPages(table, size)
    requires offset <= |table| && IsBoundary(offset, size)
    ensures |order| == |table|
    ensures multiset(Range(order, offset, size)) == multiset(Range(table, offset, size))
  {
    var to := Min(offset + size, |table|);
    assert IsBoundary(offset + size, size);
    SamePrefix(table, order, offset);
    SamePrefix(table, order, to);
    SameSlice(table, order, offset, to);
  }

  lemma {:induction false} PagesHoldTheTable(answers: Answers<Row>, table: seq<Row>, offset: nat, size: nat)
    requires Ascending(table) && size >= 1 && NoTieAcrossPages(table, size)
    requires AnswersFor(answers, table) && Collected(answers, offset, size).1 == Complete
    requires offset <= |table| && IsBoundary(offset, size)
    ensures multiset(Collected(answers, offset, size).0) == multiset(table[offset..])
    decreases |answers|
  {
    hide SortedAnswer, NoTieAcrossPages, Ascending;
    assert answers != [] && answers[0].Ok? && SortedAnswer(answers[0].value, table);
    var page := Range(table, offset, size);
    PageHolds(table, answers[0].value, offset, size);
    if |page| == size {
      assert IsBoundary(offset + size, size);
      PagesHoldTheTable(answers[1..], table, offset + size, size);
      assert table[offset..] == page + table[offset + size..];
    } else {
      assert table[offset..] == page;
    }
  }

  predicate DistinctRows(table: seq<Row>) {
    forall i, j :: 0 <= i < j < |table| ==> table[i] != table[j]
  }

  function Swapped(table: seq<Row>, at: nat): seq<Row>
    requires 0 < at < |table|
  {
    table[at - 1 := table[at]][at := table[at - 1]]
  }

  lemma SwappedAnswers(table: seq<Row>, at: nat)
    requires Ascending(table) && 0 < at < |table| && table[at - 1].key == table[at].key
    ensures SortedAnswer(Swapped(table, at), table) && SortedAnswer(table, table)
  {
  }

  lemma SwapLosesARow(table: seq<Row>, at: nat)
    requires 0 < at < |table| && DistinctRows(table)
    ensures multiset(table[..at] + Swapped(table, at)[at..]) != multiset(table)
  {
    var lost := table[at];
    var emitted := table[..at] + Swapped(table, at)[at..];
    assert forall i :: 0 <= i < |emitted| ==> emitted[i] != lost;
    assert lost !in multiset(emitted) && lost in multiset(table);
  }

  /** Whatever order the database gives to tied rows at each request, a read that completes has emitted the
      whole table, each row once. */
  ghost predicate AlwaysComplete(table: seq<Row>, size: nat)
    requires size >= 1
  {
    forall answers | AnswersFor(answers, table) && Collected(answers, 0, size).1 == Complete ::
      multiset(Collected(answers, 0, size).0) == multiset(table)
  }

  /** A table that nobody changes meanwhile is read completely, whatever order the database gives to tied
      rows, exactly when no tie of the order key spans a page boundary. Only journal_entry_tags has such
      keys. */
  lemma CompleteExactlyWithoutTiesAcrossPages(table: seq<Row>, size: nat)
    requires Ascending(table) && DistinctRows(table) && size >= 1
    ensures AlwaysComplete(table, size) <==> NoTieAcrossPages(table, size)
  {
    if NoTieAcrossPages(table, size) {
      assert table[0..] == table;
      forall answers | AnswersFor(answers, table) && Collected(answers, 0, size).1 == Complete
        ensures multiset(Collected(answers, 0, size).0) == multiset(table)
      {
        PagesHoldTheTable(answers, table, 0, size);
      }
    } else {
      var at: nat :| 0 < at < |table| && IsBoundary(at, size) && table[at - 1].key == table[at].key;
      TieLosesARow(table, at, size);
    }
  }

  /** The database swaps the tied pair once the reader has passed the boundary between them. */
  lemma TieLosesARow(table: seq<Row>, at: nat, size: nat)
    requires Ascending(table) && DistinctRows(table) && size >= 1
    requires 0 < at < |table| && IsBoundary(at, size) && table[at - 1].key == table[at].key
    ensures !AlwaysComplete(table, size)
  {
    hide Ascending, DistinctRows, SortedAnswer, Collected, Turning;
    var swapped := Swapped(table, at);
    var answers := Turning(table, swapped, at, 0, size, |table| + 1);
    SwappedAnswers(table, at);
    assert AnswersFor(answers, table);
    TurningCollects(table, swapped, at, 0, size, |table| + 1);
    assert table[0..at] == table[..at];
    SwapLosesARow(table, at);
  }

  /** Eleven of the twelve exported tables are ordered by a unique key: a table that nobody changes meanwhile
      is then read completely. */
  lemma UniqueKeyTablesAreComplete(table: seq<Row>, size: nat)
    requires Ascending(table) && DistinctKeys(table) && size >= 1
    ensures AlwaysComplete(table, size)
  {
    CompleteExactlyWithoutTiesAcrossPages(table, size);
  }
}
