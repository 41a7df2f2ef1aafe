/** Offset pages, the way apps/api/src/account/export.service.ts reads tables and chunks: one request per
    page, each answered from the table as it is at that moment, until a page comes back short. */
module OffsetPaging {
  import opened Common

  /** How a read ends: with a short page, with an error, or not, for want of further answers. */
  datatype Outcome = Complete | Failed(message: string) | Interrupted

  /** One answer per request: all rows the query selects in their order, of which a page is cut. */
  type Answers<T> = seq<Result<seq<T>, string>>

  /** `range(offset, offset + size - 1)`, both ends inclusive. */
  function Range<T>(order: seq<T>, offset: nat, size: nat): (page: seq<T>)
    ensures |page| <= size
    ensures |page| == size <==> size == 0 || offset + size <= |order|
  {
    order[Min(offset, |order|)..Min(offset + size, |order|)]
  }

  /** The rows collected from `offset` on, and how that ends. */
  function Collected<T>(answers: Answers<T>, offset: nat, size: nat): (seq<T>, Outcome) {
    if answers == [] then ([], Interrupted)
    else if answers[0].Err? then ([], Failed(answers[0].error))
    else
      var page := Range(answers[0].value, offset, size);
      if |page| < size then (page, Complete)
      else
        var rest := Collected(answers[1..], offset + size, size);
        (page + rest.0, rest.1)
  }

  /** The next request: what it ends with, or the page it adds. */
  lemma NextPage<T>(answers: Answers<T>, offset: nat, size: nat)
    ensures answers == [] ==> Collected(answers, offset, size) == ([], Interrupted)
    ensures answers != [] && answers[0].Err? ==> Collected(answers, offset, size) == ([], Failed(answers[0].error))
    ensures answers != [] && answers[0].Ok? ==>
              var page := Range(answers[0].value, offset, size);
              Collected(answers, offset, size)
              == if |page| < size then (page, Complete)
                 else (page + Collected(answers[1..], offset + size, size).0,
                       Collected(answers[1..], offset + size, size).1)
  {
  }

  // ------------------------------------------------------------------ when a read ends

  /** Request k ends the read: it fails, or the table does not reach beyond its page. */
  predicate EndsAt<T>(answers: Answers<T>, offset: nat, size: nat, k: nat)
    requires k < |answers|
  {
    answers[k].Err? || |answers[k].value| < offset + (k + 1) * size
  }

  lemma OnePageOn<T>(answers: Answers<T>, offset: nat, size: nat, k: nat)
    requires 0 < k < |answers|
    ensures EndsAt(answers, offset, size, k) <==> EndsAt(answers[1..], offset + size, size, k - 1)
  {
    assert offset + (k + 1) * size == (offset + size) + k * size;
  }

  /** A read ends exactly when one of its requests fails or finds a table that has not outgrown the pages
      read by then: a table may keep the reader going by growing a page with every request. */
  lemma {:induction false} EndsExactlyWhenOvertaken<T>(answers: Answers<T>, offset: nat, size: nat)
    requires size >= 1
    ensures Collected(answers, offset, size).1 != Interrupted
       <==> exists k: nat :: k < |answers| && EndsAt(answers, offset, size, k)
    decreases |answers|
  {
    if answers != [] {
      assert EndsAt(answers, offset, size, 0) <==> answers[0].Err? || |answers[0].value| < offset + size;
      if !EndsAt(answers, offset, size, 0) {
        var later, next := answers[1..], offset + size;
        EndsExactlyWhenOvertaken(later, next, size);
        forall k: nat | 0 < k < |answers|
          ensures EndsAt(answers, offset, size, k) <==> EndsAt(later, next, size, k - 1)
        {
          OnePageOn(answers, offset, size, k);
        }
        hide EndsAt;
        if k: nat :| k < |later| && EndsAt(later, next, size, k) {
          assert EndsAt(answers, offset, size, k + 1);
        }
        if k: nat :| k < |answers| && EndsAt(answers, offset, size, k) {
          assert EndsAt(later, next, size, k - 1);
        }
      }
    }
  }

  // ------------------------------------------------------------------ a table that changes once

  /** The multiples of the page size. */
  predicate IsBoundary(offset: nat, size: nat)
    requires size >= 1
  {
    offset == 0 || (offset >= size && IsBoundary(offset - size, size))
  }

  lemma {:induction false} BoundaryAhead(offset: nat, at: nat, size: nat)
    requires size >= 1 && IsBoundary(offset, size) && IsBoundary(at, size) && offset < at
    ensures offset + size <= at
  {
    if offset > 0 {
      BoundaryAhead(offset - size, at - size, size);
    }
  }

  /** n answers: `before` to the requests below offset `at`, `after` to the others. */
  function Turning<T>(before: seq<T>, after: seq<T>, at: nat, offset: nat, size: nat, n: nat): (answers: Answers<T>)
    ensures |answers| == n
    ensures forall k :: 0 <= k < n ==> answers[k] == Ok(before) || answers[k] == Ok(after)
    decreases n
  {
    if n == 0 then [] else [Ok(if offset < at then before else after)] + Turning(before, after, at, offset + size, size, n - 1)
  }

  /** A full page, and what is collected behind it. */
  lemma FullPage<T>(answers: Answers<T>, order: seq<T>, offset: nat, size: nat)
    requires answers != [] && answers[0] == Ok(order) && offset + size <= |order|
    ensures var rest := Collected(answers[1..], offset + size, size);
            Collected(answers, offset, size) == (order[offset..offset + size] + rest.0, rest.1)
  {
  }

  lemma LastPage<T>(answers: Answers<T>, order: seq<T>, offset: nat, size: nat)
    requires size >= 1 && answers != [] && answers[0] == Ok(order) && offset + size > |order|
    ensures Collected(answers, offset, size) == (order[Min(offset, |order|)..], Complete)
  {
    assert Range(order, offset, size) == order[Min(offset, |order|)..];
  }

  lemma FirstTurning<T>(before: seq<T>, after: seq<T>, at: nat, offset: nat, size: nat, n: nat)
    requires n > 0
    ensures var answers := Turning(before, after, at, offset, size, n);
            answers[0] == Ok(if offset < at then before else after)
            && answers[1..] == Turning(before, after, at, offset + size, size, n - 1)
  {
  }

  lemma {:induction false} TurnedCollects<T>(
    before: seq<T>, after: seq<T>, at: nat, offset: nat, size: nat, n: nat)
    requires size >= 1 && at <= offset && n > 0 && offset + n > |after|
    ensures Collected(Turning(before, after, at, offset, size, n), offset, size)
         == (after[Min(offset, |after|)..], Complete)
    decreases n
  {
    hide Collected, Turning;
    var answers := Turning(before, after, at, offset, size, n);
    FirstTurning(before, after, at, offset, size, n);
    if offset + size <= |after| {
      FullPage(answers, after, offset, size);
      TurnedCollects(before, after, at, offset + size, size, n - 1);
      assert after[offset..] == after[offset..offset + size] + after[offset + size..];
    } else {
      LastPage(answers, after, offset, size);
    }
  }

  /** A turn behind the whole table comes too late to matter. */
  lemma {:induction false} NeverTurned<T>(
    before: seq<T>, after: seq<T>, at: nat, offset: nat, size: nat, n: nat)
    requires size >= 1 && offset <= |before| < at && n > 0 && offset + n > |before|
    ensures Collected(Turning(before, after, at, offset, size, n), offset, size) == (before[offset..], Complete)
    decreases n
  {
    hide Collected, Turning;
    var answers := Turning(before, after, at, offset, size, n);
    FirstTurning(before, after, at, offset, size, n);
    if offset + size <= |before| {
      FullPage(answers, before, offset, size);
      NeverTurned(before, after, at, offset + size, size, n - 1);
      assert before[offset..] == before[offset..offset + size] + before[offset + size..];
    } else {
      LastPage(answers, before, offset, size);
    }
  }

  /** The pages before the turn come from the one table, those behind it from the other. */
  lemma {:induction false} TurningCollects<T>(
    before: seq<T>, after: seq<T>, at: nat, offset: nat, size: nat, n: nat)
    requires size >= 1 && IsBoundary(at, size) && IsBoundary(offset, size) && offset <= at <= |before|
    requires n > 0 && offset + n > |after| && offset + n > |before|
    ensures Collected(Turning(before, after, at, offset, size, n), offset, size)
         == (before[offset..at] + after[Min(at, |after|)..], Complete)
    decreases n
  {
    hide Collected, Turning;
    var rest := after[Min(at, |after|)..];
    if offset == at {
      TurnedCollects(before, after, at, offset, size, n);
      assert before[at..at] + rest == rest;
    } else {
      BoundaryAhead(offset, at, size);
      assert IsBoundary(offset + size, size);
      hide IsBoundary;
      FirstTurning(before, after, at, offset, size, n);
      FullPage(Turning(before, after, at, offset, size, n), before, offset, size);
      TurningCollects(before, after, at, offset + size, size, n - 1);
      var page, next := before[offset..offset + size], before[offset + size..at];
      assert before[offset..at] == page + next;
      SlideIn(page, next, rest);
    }
  }

  lemma SlideIn<T>(a: seq<T>, b: seq<T>, c: seq<T>)
    ensures (a + b) + c == a + (b + c)
  {
  }
}
