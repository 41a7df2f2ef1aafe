/** The reporter class itself. One operation, run to its end, is one of the outbox machine's runs. */
module OutboxReporter {
  import opened Common
  import opened Outbox

  /** How one turn of the flush loop goes: did the request get a 2xx, did the save after it work. */
  datatype Reply = Reply(sent: bool, saved: bool)

  datatype FlushResult = FlushResult(queue: seq<Report>, saved: seq<Report>, delivered: seq<Report>)

  /** What flushing leaves in memory and in the store, and what it delivered. Running out of replies
      means the next request throws. */
  function FlushFrom(queue: seq<Report>, saved: seq<Report>, batchSize: nat, replies: seq<Reply>): FlushResult
    decreases |replies|
  {
    if queue == [] || replies == [] || !replies[0].sent then FlushResult(queue, saved, [])
    else
      var batch := Batch(queue, batchSize);
      var rest := queue[|batch|..];
      if !replies[0].saved then FlushResult(rest, saved, batch)
      else
        var r := FlushFrom(rest, rest, batchSize, replies[1..]);
        r.(delivered := batch + r.delivered)
  }

  /** What a queue is cut down to: the newest ceil(maxQueued) reports, if it exceeds maxQueued. */
  function Trim(queue: seq<Report>, limit: Limit): seq<Report> {
    if Exceeds(|queue|, limit) then TakeLast(queue, Ceiling(limit.value)) else queue
  }

  class ErrorReportStore {
    var saved: seq<Report>

    constructor ()
      ensures saved == []
    {
      saved := [];
    }

    method Save(reports: seq<Report>, ok: bool)
      modifies this
      ensures saved == if ok then reports else old(saved)
    {
      if ok {
        saved := reports;
      }
    }
  }

  class DurableHttpErrorReporter {
    const batchSize: nat
    const maxQueued: Limit
    const store: ErrorReportStore
    var queue: seq<Report>

    ghost predicate Valid()
      reads this
    {
      ValidConfig(Config(batchSize, maxQueued)) && WithinLimit(|queue|, maxQueued)
    }

    constructor (batchSize: Option<Number>, maxQueued: Option<Number>, store: ErrorReportStore, loadOk: bool)
      ensures Valid() && this.store == store
      ensures Config(this.batchSize, this.maxQueued) == Configure(batchSize, maxQueued)
      ensures !loadOk ==> queue == []
      ensures loadOk && !Exceeds(|store.saved|, this.maxQueued) ==> queue == store.saved
      ensures loadOk && Exceeds(|store.saved|, this.maxQueued) ==>
                queue == TakeLast(store.saved, this.maxQueued.value.Floor)
    {
      var config := Configure(batchSize, maxQueued);
      this.batchSize := config.batchSize;
      this.maxQueued := config.maxQueued;
      this.store := store;
      this.queue := if loadOk then Kept(store.saved, config.maxQueued) else [];
      new;
      KeptIsWithinLimit(store.saved, config.maxQueued);
      LoadKeepsTheNewest(store.saved, config.maxQueued);
    }

    method FlushUnsafe(replies: seq<Reply>) returns (ghost delivered: seq<Report>)
      requires Valid()
      modifies this, store
      ensures Valid()
      ensures FlushResult(queue, store.saved, delivered)
              == FlushFrom(old(queue), old(store.saved), batchSize, replies)
    {
      hide FlushFrom;
      delivered := [];
      var i := 0;
      ghost var target := FlushFrom(queue, store.saved, batchSize, replies);
      while |queue| > 0
        invariant Valid() && 0 <= i <= |replies|
        invariant var r := FlushFrom(queue, store.saved, batchSize, replies[i..]);
                  r.(delivered := delivered + r.delivered) == target
        decreases |replies| - i
      {
        var batch := queue[..Min(batchSize, |queue|)];
        FlushTurn(queue, store.saved, batchSize, replies[i..]);
        if i == |replies| || !replies[i].sent {
          return;
        }
        assert replies[i..][1..] == replies[i + 1..];
        queue := queue[|batch|..];
        store.Save(queue, replies[i].saved);
        delivered := delivered + batch;
        if !replies[i].saved {
          return;
        }
        i := i + 1;
      }
      NothingToFlush(store.saved, batchSize, replies[i..]);
    }

    /** One accepted report: push, trim, save, then flush unless the save failed. */
    method Report(report: Report, saveOk: bool, replies: seq<Reply>) returns (ghost delivered: seq<Report>)
      requires Valid()
      modifies this, store
      ensures Valid()
      ensures var kept := Trim(old(queue) + [report], maxQueued);
              FlushResult(queue, store.saved, delivered)
              == if saveOk then FlushFrom(kept, kept, batchSize, replies) else FlushResult(kept, old(store.saved), [])
    {
      hide FlushFrom, WithinLimit;
      queue := queue + [report];
      TrimmedIsWithinLimit(queue, maxQueued);
      OverflowLeavesTheCeiling(queue, maxQueued);
      if maxQueued.Some? && |queue| as real > maxQueued.value {
        queue := queue[(|queue| as real - maxQueued.value).Floor..];
      }
      store.Save(queue, saveOk);
      delivered := [];
      if saveOk {
        delivered := FlushUnsafe(replies);
      }
    }
  }

  /** One turn of the loop, and what the remaining turns make of the rest. */
  lemma FlushTurn(queue: seq<Report>, saved: seq<Report>, batchSize: nat, replies: seq<Reply>)
    requires queue != []
    ensures replies == [] || !replies[0].sent ==>
              FlushFrom(queue, saved, batchSize, replies) == FlushResult(queue, saved, [])
    ensures replies != [] && replies[0].sent ==>
              var batch := Batch(queue, batchSize);
              var rest := queue[|batch|..];
              FlushFrom(queue, saved, batchSize, replies)
              == if !replies[0].saved then FlushResult(rest, saved, batch)
                 else var r := FlushFrom(rest, rest, batchSize, replies[1..]); r.(delivered := batch + r.delivered)
  {
  }

  lemma NothingToFlush(saved: seq<Report>, batchSize: nat, replies: seq<Reply>)
    ensures FlushFrom([], saved, batchSize, replies) == FlushResult([], saved, [])
  {
  }

  /** Flushing only ever moves reports from the front of the queue to the receiver, in order. */
  lemma {:induction false} FlushConserves(queue: seq<Report>, saved: seq<Report>, batchSize: nat, replies: seq<Reply>)
    ensures var r := FlushFrom(queue, saved, batchSize, replies); r.delivered + r.queue == queue
    decreases |replies|
  {
    if queue == [] {
      NothingToFlush(saved, batchSize, replies);
    } else {
      hide FlushFrom;
      FlushTurn(queue, saved, batchSize, replies);
      if replies != [] && replies[0].sent && replies[0].saved {
        var n := |Batch(queue, batchSize)|;
        FlushConserves(queue[n..], queue[n..], batchSize, replies[1..]);
        var r := FlushFrom(queue[n..], queue[n..], batchSize, replies[1..]);
        BehindTheBatch(queue, n, r.delivered, r.queue);
      }
    }
  }

  lemma BehindTheBatch(queue: seq<Report>, n: nat, delivered: seq<Report>, rest: seq<Report>)
    requires n <= |queue| && delivered + rest == queue[n..]
    ensures (queue[..n] + delivered) + rest == queue
  {
    assert (queue[..n] + delivered) + rest == queue[..n] + (delivered + rest);
  }

  predicate AllGood(replies: seq<Reply>) {
    forall i :: 0 <= i < |replies| ==> replies[i].sent && replies[i].saved
  }

  /** With a working network and store, one flush empties the queue after ceil(n / batchSize)
      requests, and not before. */
  lemma {:induction false} FlushDrains(queue: seq<Report>, saved: seq<Report>, batchSize: nat, replies: seq<Reply>)
    requires AllGood(replies)
    ensures FlushFrom(queue, saved, batchSize, replies).queue == [] <==> |queue| <= |replies| * batchSize
    decreases |replies|
  {
    if queue != [] && replies != [] {
      var rest := queue[|Batch(queue, batchSize)|..];
      assert AllGood(replies[1..]);
      FlushDrains(rest, rest, batchSize, replies[1..]);
      hide AllGood;
      OneBatchLess(|replies| - 1, batchSize);
    }
  }

  lemma OneBatchLess(n: nat, batchSize: nat)
    ensures n * batchSize >= 0 && (n + 1) * batchSize == n * batchSize + batchSize
  {
  }

  /** How many replies are good before the first that is not. */
  function GoodTurns(replies: seq<Reply>): (k: nat)
    ensures k <= |replies|
  {
    if replies == [] || !replies[0].sent || !replies[0].saved then 0 else 1 + GoodTurns(replies[1..])
  }

  lemma {:induction false} GoodTurnsAreTheFirst(replies: seq<Reply>)
    ensures forall i :: 0 <= i < GoodTurns(replies) ==> replies[i].sent && replies[i].saved
    ensures GoodTurns(replies) < |replies| ==> !replies[GoodTurns(replies)].sent || !replies[GoodTurns(replies)].saved
  {
    if replies != [] && replies[0].sent && replies[0].saved {
      GoodTurnsAreTheFirst(replies[1..]);
      assert forall i :: 1 <= i < |replies| ==> replies[i] == replies[1..][i - 1];
    }
  }

  /** What so many batches take of a queue. */
  function Taken(queue: seq<Report>, turns: nat, batchSize: nat): nat {
    Min(turns * batchSize, |queue|)
  }

  lemma TakenAfterOne(queue: seq<Report>, turns: nat, batchSize: nat)
    ensures var first := |Batch(queue, batchSize)|;
            && first == Taken(queue, 1, batchSize)
            && Taken(queue, turns + 1, batchSize) == first + Taken(queue[first..], turns, batchSize)
    ensures Taken(queue, 0, batchSize) == 0
  {
    OneBatchLess(turns, batchSize);
  }

  lemma SliceOfRest(queue: seq<Report>, first: nat, n: nat)
    requires first + n <= |queue|
    ensures queue[..first] + queue[first..][..n] == queue[..first + n] && queue[first..][n..] == queue[first + n..]
  {
  }

  /** How many requests get a 2xx before the flush stops: the good turns, and one whose save fails. */
  function SentTurns(replies: seq<Reply>): nat {
    var good := GoodTurns(replies);
    if good < |replies| && replies[good].sent then good + 1 else good
  }

  lemma TurnsStep(replies: seq<Reply>)
    requires replies != []
    ensures replies[0].sent && replies[0].saved ==>
              GoodTurns(replies) == GoodTurns(replies[1..]) + 1 && SentTurns(replies) == SentTurns(replies[1..]) + 1
    ensures !(replies[0].sent && replies[0].saved) ==>
              GoodTurns(replies) == 0 && SentTurns(replies) == if replies[0].sent then 1 else 0
  {
  }

  /** What a flush is to leave and to deliver. */
  predicate DeliversSent(r: FlushResult, queue: seq<Report>, saved: seq<Report>, batchSize: nat, replies: seq<Reply>) {
    && r.delivered == queue[..Taken(queue, SentTurns(replies), batchSize)]
    && r.queue == queue[Taken(queue, SentTurns(replies), batchSize)..]
    && r.saved == if GoodTurns(replies) == 0 || queue == [] then saved
                  else queue[Taken(queue, GoodTurns(replies), batchSize)..]
  }

  lemma FailingTurnDelivers(queue: seq<Report>, saved: seq<Report>, batchSize: nat, replies: seq<Reply>)
    requires queue != [] && (replies == [] || !replies[0].sent || !replies[0].saved)
    ensures DeliversSent(FlushFrom(queue, saved, batchSize, replies), queue, saved, batchSize, replies)
  {
    hide FlushFrom, Taken, Batch;
    FlushTurn(queue, saved, batchSize, replies);
    BatchIsFront(queue, batchSize);
    TakenAfterOne(queue, 0, batchSize);
    if replies != [] {
      TurnsStep(replies);
    }
  }

  lemma GoodTurnDelivers(queue: seq<Report>, saved: seq<Report>, batchSize: nat, replies: seq<Reply>, later: FlushResult)
    requires queue != [] && replies != [] && replies[0].sent && replies[0].saved
    requires var rest := queue[|Batch(queue, batchSize)|..];
             later == FlushFrom(rest, rest, batchSize, replies[1..])
             && DeliversSent(later, rest, rest, batchSize, replies[1..])
    ensures DeliversSent(FlushFrom(queue, saved, batchSize, replies), queue, saved, batchSize, replies)
  {
    BatchIsFront(queue, batchSize);
    hide FlushFrom, Taken, Batch, GoodTurns, SentTurns;
    FlushTurn(queue, saved, batchSize, replies);
    TurnsStep(replies);
    OneBatchMore(queue, GoodTurns(replies[1..]), batchSize);
    OneBatchMore(queue, SentTurns(replies[1..]), batchSize);
    TakenOfNothing(queue[|Batch(queue, batchSize)|..], GoodTurns(replies[1..]), batchSize);
  }

  /** A flush delivers exactly the batches whose requests got a 2xx, up to the first request or save that fails,
      where it stops: the front of the queue, in order. The store holds what was left after the last good turn,
      if there was one. */
  lemma {:induction false} FlushDeliversExactly(
    queue: seq<Report>, saved: seq<Report>, batchSize: nat, replies: seq<Reply>)
    ensures DeliversSent(FlushFrom(queue, saved, batchSize, replies), queue, saved, batchSize, replies)
    decreases |replies|
  {
    if queue == [] {
      NothingToFlush(saved, batchSize, replies);
    } else if replies == [] || !replies[0].sent || !replies[0].saved {
      FailingTurnDelivers(queue, saved, batchSize, replies);
    } else {
      hide DeliversSent, FlushFrom;
      var rest := queue[|Batch(queue, batchSize)|..];
      FlushDeliversExactly(rest, rest, batchSize, replies[1..]);
      GoodTurnDelivers(queue, saved, batchSize, replies, FlushFrom(rest, rest, batchSize, replies[1..]));
    }
  }

  /** One batch, and what later batches take of the rest. */
  lemma OneBatchMore(queue: seq<Report>, turns: nat, batchSize: nat)
    ensures var first := |Batch(queue, batchSize)|;
            var later, all := Taken(queue[first..], turns, batchSize), Taken(queue, turns + 1, batchSize);
            && Batch(queue, batchSize) == queue[..first] && Batch(queue, batchSize) + queue[first..][..later] == queue[..all]
            && queue[first..][later..] == queue[all..]
  {
    BatchIsFront(queue, batchSize);
    hide Taken, Batch;
    TakenAfterOne(queue, turns, batchSize);
    var first := |Batch(queue, batchSize)|;
    TakenAtMost(queue[first..], turns, batchSize);
    SliceOfRest(queue, first, Taken(queue[first..], turns, batchSize));
  }

  lemma BatchIsFront(queue: seq<Report>, batchSize: nat)
    ensures |Batch(queue, batchSize)| <= |queue| && Batch(queue, batchSize) == queue[..|Batch(queue, batchSize)|]
  {
  }

  lemma TakenAtMost(queue: seq<Report>, turns: nat, batchSize: nat)
    ensures Taken(queue, turns, batchSize) <= |queue|
  {
  }

  lemma TakenOfNothing(queue: seq<Report>, turns: nat, batchSize: nat)
    ensures queue == [] ==> Taken(queue, turns, batchSize) == 0
    ensures Taken(queue, 0, batchSize) == 0
  {
    OneBatchLess(turns, batchSize);
  }

  // ------------------------------------------------------------------ termination

  /** How many requests a flush makes before it ends. */
  function Requests(queue: seq<Report>, batchSize: nat, replies: seq<Reply>): nat
    decreases |replies|
  {
    if queue == [] then 0
    else if replies == [] || !replies[0].sent || !replies[0].saved then 1
    else 1 + Requests(queue[|Batch(queue, batchSize)|..], batchSize, replies[1..])
  }

  /** However the network and the store behave, the number of requests is limited by the queue alone. */
  ghost predicate FlushEnds(batchSize: nat) {
    forall queue, replies :: Requests(queue, batchSize, replies) <= |queue|
  }

  lemma {:induction false} EveryRequestTakesReports(queue: seq<Report>, batchSize: nat, replies: seq<Reply>)
    requires batchSize >= 1
    ensures Requests(queue, batchSize, replies) <= |queue|
    decreases |replies|
  {
    if queue != [] && replies != [] {
      EveryRequestTakesReports(queue[|Batch(queue, batchSize)|..], batchSize, replies[1..]);
    }
  }

  /** Good replies, n of them. */
  function GoodReplies(n: nat): seq<Reply> {
    seq(n, i => Reply(true, true))
  }

  lemma {:induction false} EmptyBatchesGoOn(queue: seq<Report>, n: nat)
    requires queue != []
    ensures Requests(queue, 0, GoodReplies(n)) == n + 1
  {
    if n > 0 {
      assert GoodReplies(n)[1..] == GoodReplies(n - 1);
      assert queue[0..] == queue;
      EmptyBatchesGoOn(queue, n - 1);
    }
  }

  /** A flush ends, whatever the replies, exactly when the batch size option was not NaN: with NaN the
      batches are empty and the loop makes as many requests as there are good replies. */
  lemma FlushEndsExactlyForNumbers(batchSize: Option<Number>, maxQueued: Option<Number>)
    ensures FlushEnds(Configure(batchSize, maxQueued).batchSize) <==> batchSize != Some(NaN)
  {
    var size := Configure(batchSize, maxQueued).batchSize;
    hide Configure;
    if size >= 1 {
      forall queue, replies ensures Requests(queue, size, replies) <= |queue| {
        EveryRequestTakesReports(queue, size, replies);
      }
    } else {
      var queue := [Outbox.Report(0, "")];
      EmptyBatchesGoOn(queue, 1);
      assert Requests(queue, 0, GoodReplies(1)) > |queue|;
    }
  }

  // ------------------------------------------------------------------ refinement

  function FlushSteps(queue: seq<Report>, batchSize: nat, replies: seq<Reply>): seq<Step>
    decreases |replies|
  {
    if queue == [] then []
    else if replies == [] || !replies[0].sent then [FetchDone(false)]
    else
      var rest := queue[|Batch(queue, batchSize)|..];
      [FetchDone(true), ResaveDone(replies[0].saved)]
      + if replies[0].saved then FlushSteps(rest, batchSize, replies[1..]) else []
  }

  lemma RunCons(st: State, step: Step, steps: seq<Step>)
    requires Enabled(st, step) && Runs(Next(st, step), steps)
    ensures Runs(st, [step] + steps) && Final(st, [step] + steps) == Final(Next(st, step), steps)
  {
  }

  lemma {:induction false} FlushLoopIsARun(st: State, replies: seq<Reply>)
    requires ValidConfig(st.config)
    ensures var steps, start := FlushSteps(st.queue, st.config.batchSize, replies), EnterFlush(st);
            && Runs(start, steps)
            && var r := FlushFrom(st.queue, st.saved, st.config.batchSize, replies);
               Final(start, steps).queue == r.queue && Final(start, steps).saved == r.saved
               && Final(start, steps).phase == Idle
    decreases |replies|
  {
    var start := EnterFlush(st);
    if st.queue == [] {
    } else if replies == [] || !replies[0].sent {
      RunCons(start, FetchDone(false), []);
    } else {
      var acked := Acknowledge(start, start.phase.batch);
      var saved := replies[0].saved;
      var tail: seq<Step> := if saved then FlushSteps(acked.queue, st.config.batchSize, replies[1..]) else [];
      if saved {
        FlushLoopIsARun(SaveQueue(acked), replies[1..]);
      }
      hide Acknowledge, SaveQueue, EnterFlush;
      RunCons(acked, ResaveDone(saved), tail);
      RunCons(start, FetchDone(true), [ResaveDone(saved)] + tail);
      assert FlushSteps(st.queue, st.config.batchSize, replies) == [FetchDone(true)] + ([ResaveDone(saved)] + tail);
    }
  }

  /** What the Report method computes is what the machine does when nothing interrupts it. */
  lemma ReportIsARun(st: State, text: string, saveOk: bool, replies: seq<Reply>)
    requires ValidConfig(st.config) && st.phase == Idle && st.waiting == [ReportOp(text)]
    ensures var kept := Trim(st.queue + [Outbox.Report(st.arrivals, text)], st.config.maxQueued);
            var steps := [Start, SaveDone(saveOk)] + if saveOk then FlushSteps(kept, st.config.batchSize, replies) else [];
            && Runs(st, steps)
            && var r := if saveOk then FlushFrom(kept, kept, st.config.batchSize, replies) else FlushResult(kept, st.saved, []);
               Final(st, steps).queue == r.queue && Final(st, steps).saved == r.saved && Final(st, steps).phase == Idle
  {
    var kept := Trim(st.queue + [Outbox.Report(st.arrivals, text)], st.config.maxQueued);
    var pushed := Push(st.(waiting := st.waiting[1..]), text).(phase := Saving);
    assert Next(st, Start) == pushed && pushed.queue == kept;
    var tail: seq<Step> := if saveOk then FlushSteps(kept, st.config.batchSize, replies) else [];
    if saveOk {
      FlushLoopIsARun(SaveQueue(pushed), replies);
    }
    hide Push, EnterFlush;
    RunCons(pushed, SaveDone(saveOk), tail);
    RunCons(st, Start, [SaveDone(saveOk)] + tail);
    assert [Start, SaveDone(saveOk)] + tail == [Start] + ([SaveDone(saveOk)] + tail);
  }
}
