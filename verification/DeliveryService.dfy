/** The worker's own code, statement by statement, and its place in the protocol: run without
    interruption, the batch loop is one of the protocol's runs. */
module DeliveryService {
  import opened Common
  import opened Sequences
  import opened DeliveryRows
  import opened Delivery

  /** The guarded result update as it acts on the whole table. */
  function RecordRow(rows: map<RowId, Row>, c: Claim, worker: WorkerId, outcome: Outcome, now: int): map<RowId, Row> {
    if c.id in rows then rows[c.id := Recorded(rows[c.id], c.attempts, worker, outcome, now)] else rows
  }

  /** How one delivery of a batch goes: its result is written at some time, or its update is lost, or
      reading its notification throws, which ends the loop. */
  datatype Turn = Written(outcome: Outcome, at: int) | Lost | Throws

  function DeliverAll(rows: map<RowId, Row>, batch: seq<Claim>, worker: WorkerId, turns: seq<Turn>): map<RowId, Row>
    requires |batch| == |turns|
  {
    if batch == [] then rows
    else match turns[0]
      case Written(outcome, at) =>
        DeliverAll(RecordRow(rows, batch[0], worker, outcome, at), batch[1..], worker, turns[1..])
      case Lost => DeliverAll(rows, batch[1..], worker, turns[1..])
      case Throws => rows
  }

  class DeliveryTable {
    var rows: map<RowId, Row>

    constructor ()
      ensures rows == map[]
    {
      rows := map[];
    }

    /** The claim function of migration 00033, for the ids it selects: every selected row changes
        nothing but its lease, and no claim can select it again before the lease expires. */
    method ClaimDeliveries(ids: seq<RowId>, worker: WorkerId, now: int) returns (claims: seq<Claim>)
      requires forall id :: id in ids ==> id in rows && Claimable(rows[id], now)
      modifies this
      ensures |claims| == |ids|
      ensures forall i :: 0 <= i < |ids| ==> claims[i].id == ids[i] && claims[i].attempts == old(rows)[ids[i]].attempts
      ensures rows.Keys == old(rows).Keys
      ensures forall id :: id in rows && id !in ids ==> rows[id] == old(rows)[id]
      ensures forall id :: id in ids ==>
                id in rows && rows[id].leaseOwner == Some(worker) && rows[id].leaseExpiresAt == Some(now + LEASE_MS)
                && rows[id].(leaseOwner := None, leaseExpiresAt := None)
                   == old(rows)[id].(leaseOwner := None, leaseExpiresAt := None)
      ensures forall id, later :: id in ids && later < now + LEASE_MS ==> !Claimable(rows[id], later)
      ensures rows == ClaimRows(old(rows), ids, worker, now) && claims == Claims(old(rows), ids)
    {
      claims := Claims(rows, ids);
      rows := map id | id in rows :: if id in ids then Claimed(rows[id], worker, now) else rows[id];
    }
  }

  class NotificationsService {
    const workerId: WorkerId
    const table: DeliveryTable
    var workerRunning: bool

    constructor (workerId: WorkerId, table: DeliveryTable)
      ensures this.workerId == workerId && this.table == table && !workerRunning
    {
      this.workerId := workerId;
      this.table := table;
      this.workerRunning := false;
    }

    /** The guard at the top of runWorker: a timer tick during a run does nothing. */
    method TryStart() returns (started: bool)
      modifies this
      ensures workerRunning && started == !old(workerRunning)
      ensures forall active: nat ::
                After(true, Worker(old(workerRunning), active), Timer)
                == Worker(workerRunning, if started then active + 1 else active)
    {
      if workerRunning {
        return false;
      }
      workerRunning := true;
      started := true;
    }

    /** The `finally` of runWorker. */
    method EndRun()
      modifies this
      ensures !workerRunning
      ensures forall active: nat | active > 0 ::
                After(true, Worker(old(workerRunning), active), RunEnds) == Worker(workerRunning, active - 1)
    {
      workerRunning := false;
    }

    /** Releases the rows that were read as held, each at its own time, unless it is still quiet for the
        recipient; reading a recipient's profile may throw, which ends the loop. A release changes status,
        error, time of the next attempt and lease, whatever the row has become since it was read. */
    method ReleaseQuietHourDeliveries(ids: seq<RowId>, releases: seq<Option<int>>)
      requires |releases| <= |ids| && Distinct(ids) && forall id :: id in ids ==> id in table.rows
      modifies table
      ensures table.rows.Keys == old(table.rows).Keys
      ensures forall id :: id in table.rows && id !in ids[..|releases|] ==> table.rows[id] == old(table.rows)[id]
      ensures forall i :: 0 <= i < |releases| ==>
                ids[i] in table.rows
                && table.rows[ids[i]]
                   == match releases[i]
                      case None => old(table.rows)[ids[i]]
                      case Some(now) =>
                        old(table.rows)[ids[i]].(status := PENDING, error := None, nextAttemptAt := now,
                                                 leaseOwner := None, leaseExpiresAt := None)
    {
      for i := 0 to |releases|
        invariant table.rows.Keys == old(table.rows).Keys
        invariant forall id :: id in table.rows && id !in ids[..i] ==> table.rows[id] == old(table.rows)[id]
        invariant forall k :: 0 <= k < i ==>
                    ids[k] in table.rows
                    && table.rows[ids[k]] == if releases[k].None? then old(table.rows)[ids[k]]
                                             else Released(old(table.rows)[ids[k]], releases[k].value)
      {
        assert ids[i] in ids && ids[i] !in ids[..i];
        if releases[i].Some? {
          table.rows := table.rows[ids[i] := Released(table.rows[ids[i]], releases[i].value)];
        }
      }
    }

    /** Applies the receipts of the rows that were read as sent pushes: a good one makes the row DELIVERED and
        clears its error, a bad one makes it FAILED with the message, and without a receipt, or when the
        update is refused, the row stays as it is. When the receipts cannot be had nothing changes. */
    method ProcessExpoReceipts(ids: seq<RowId>, answer: Option<seq<Receipt>>)
      requires Distinct(ids)
      requires forall id :: id in ids ==>
                 id in table.rows && table.rows[id].isPush && table.rows[id].status == SENT
                 && table.rows[id].providerId.Some?
      requires answer.Some? ==> |answer.value| == |ids|
      modifies table
      ensures answer.None? ==> table.rows == old(table.rows)
      ensures table.rows.Keys == old(table.rows).Keys
      ensures forall id :: id in table.rows && id !in ids ==> table.rows[id] == old(table.rows)[id]
      ensures forall i :: 0 <= i < |ids| && answer.Some? ==>
                ids[i] in table.rows
                && match answer.value[i]
                   case NoReceipt => table.rows[ids[i]] == old(table.rows)[ids[i]]
                   case ReceiptOk => table.rows[ids[i]] == old(table.rows)[ids[i]].(status := DELIVERED, error := None)
                   case ReceiptError(message) =>
                     table.rows[ids[i]] == old(table.rows)[ids[i]].(status := FAILED, error := Some(message))
    {
      if answer.None? {
        return;
      }
      for i := 0 to |ids|
        invariant table.rows.Keys == old(table.rows).Keys
        invariant forall id :: id in table.rows && id !in ids[..i] ==> table.rows[id] == old(table.rows)[id]
        invariant forall k :: 0 <= k < i ==>
                    ids[k] in table.rows && table.rows[ids[k]] == Receipted(old(table.rows)[ids[k]], answer.value[k])
      {
        assert ids[i] in ids && ids[i] !in ids[..i];
        table.rows := table.rows[ids[i] := Receipted(table.rows[ids[i]], answer.value[i])];
      }
      assert ids[..|ids|] == ids;
    }

    /** One delivery; false when it throws before its result update. */
    method Deliver(delivery: Claim, turn: Turn) returns (returned: bool)
      modifies table
      ensures returned <==> !turn.Throws?
      ensures table.rows == if turn.Written? then RecordRow(old(table.rows), delivery, workerId, turn.outcome, turn.at)
                            else old(table.rows)
    {
      if !turn.Written? {
        return !turn.Throws?;
      }
      returned := true;
      var now := turn.at;
      if delivery.id in table.rows && table.rows[delivery.id].leaseOwner == Some(workerId) {
        var row := table.rows[delivery.id];
        match turn.outcome {
          case Sent(providerId) =>
            row := row.(status := SENT, attempts := delivery.attempts + 1, providerId := providerId,
                        sentAt := Some(now), error := None, leaseOwner := None, leaseExpiresAt := None);
          case Threw(message) =>
            var attempts := delivery.attempts + 1;
            var failed := attempts >= MAX_DELIVERY_ATTEMPTS;
            var nextAttempt := now + BackoffSeconds(attempts) * 1000;
            row := row.(status := if failed then FAILED else PENDING, attempts := attempts,
                        error := Some(Clip(message, 1000)), nextAttemptAt := nextAttempt,
                        leaseOwner := None, leaseExpiresAt := None,
                        deadLetteredAt := if failed then Some(now) else None);
        }
        table.rows := table.rows[delivery.id := row];
      } else if delivery.id in table.rows {
        assert table.rows[delivery.id := table.rows[delivery.id]] == table.rows;
      }
    }

    /** Claims a batch and delivers it until one delivery throws; the exception leaves the method. */
    method ProcessPendingDeliveries(ids: seq<RowId>, turns: seq<Turn>, now: int) returns (returned: bool)
      requires |ids| == |turns|
      requires forall id :: id in ids ==> id in table.rows && Claimable(table.rows[id], now)
      modifies table
      ensures returned <==> Throws !in turns
      ensures table.rows == DeliverAll(ClaimRows(old(table.rows), ids, workerId, now), Claims(old(table.rows), ids),
                                       workerId, turns)
    {
      var batch := table.ClaimDeliveries(ids, workerId, now);
      ghost var claimed := table.rows;
      assert batch[0..] == batch && turns[0..] == turns;
      var i := 0;
      while i < |batch|
        invariant 0 <= i <= |batch| == |turns|
        invariant Throws !in turns[..i]
        invariant DeliverAll(table.rows, batch[i..], workerId, turns[i..])
                  == DeliverAll(claimed, batch, workerId, turns)
      {
        assert batch[i..][1..] == batch[i + 1..] && turns[i..][1..] == turns[i + 1..];
        assert turns[..i + 1] == turns[..i] + [turns[i]];
        var ok := Deliver(batch[i], turns[i]);
        if !ok {
          return false;
        }
        i := i + 1;
      }
      assert turns[..i] == turns;
      returned := true;
    }
  }

  // ------------------------------------------------------------------ refinement

  /** The protocol steps of a batch: the clock moves to each result's time. */
  function Deliveries(p: ProcessId, turns: seq<Turn>): seq<Step> {
    if turns == [] then []
    else match turns[0]
      case Written(outcome, at) => [Tick(at), DeliverNext(p, outcome)] + Deliveries(p, turns[1..])
      case Lost => [LoseResult(p)] + Deliveries(p, turns[1..])
      case Throws => [Abort(p)]
  }

  /** Results are written one after the other. */
  predicate Timely(now: int, turns: seq<Turn>)
    decreases |turns|
  {
    turns == []
    || (if turns[0].Written? then now <= turns[0].at && Timely(turns[0].at, turns[1..]) else Timely(now, turns[1..]))
  }

  function PhaseAfter(turns: seq<Turn>): Phase {
    if Throws in turns then Idle else Delivering([])
  }

  /** Delivering the rest of a batch is a run of the protocol with the same table, whichever results
      are lost and wherever it throws. */
  lemma {:induction false} BatchLoopIsARun(st: State, p: ProcessId, turns: seq<Turn>)
    requires Inv(st) && p in st.processes && st.processes[p].phase.Delivering? && Timely(st.now, turns)
    requires |st.processes[p].phase.batch| == |turns|
    ensures Runs(st, Deliveries(p, turns))
    ensures var end := Final(st, Deliveries(p, turns));
            && end.rows == DeliverAll(st.rows, st.processes[p].phase.batch, st.processes[p].workerId, turns)
            && p in end.processes && end.processes[p].phase == PhaseAfter(turns)
    decreases |turns|
  {
    hide Inv, Recorded;
    var batch, worker := st.processes[p].phase.batch, st.processes[p].workerId;
    if turns == [] {
      assert batch == [];
    } else {
      var rest := Deliveries(p, turns[1..]);
      assert turns == [turns[0]] + turns[1..];
      match turns[0]
      case Written(outcome, at) =>
        WrittenTurn(st, p, outcome, at, rest);
        hide Next, Enabled, RecordRow, Runs, Final;
        BatchLoopIsARun(Next(Next(st, Tick(at)), DeliverNext(p, outcome)), p, turns[1..]);
      case Lost =>
        var step := LoseResult(p);
        assert ([step] + rest)[1..] == rest;
        StepKeepsInv(st, step);
        BatchLoopIsARun(Next(st, step), p, turns[1..]);
      case Throws =>
        assert [Abort(p)][1..] == [];
    }
  }

  /** The two steps of a written result, in front of any continuation. */
  lemma WrittenTurn(st: State, p: ProcessId, outcome: Outcome, at: int, rest: seq<Step>)
    requires Inv(st) && p in st.processes && st.processes[p].phase.Delivering? && st.processes[p].phase.batch != []
    requires st.now <= at
    ensures Enabled(st, Tick(at)) && Enabled(Next(st, Tick(at)), DeliverNext(p, outcome))
    ensures var next, batch := Next(Next(st, Tick(at)), DeliverNext(p, outcome)), st.processes[p].phase.batch;
            && Inv(next) && next.now == at
            && next.rows == RecordRow(st.rows, batch[0], st.processes[p].workerId, outcome, at)
            && p in next.processes && next.processes[p] == st.processes[p].(phase := Delivering(batch[1..]))
            && (Runs(next, rest) ==>
                  Runs(st, [Tick(at), DeliverNext(p, outcome)] + rest)
                  && Final(st, [Tick(at), DeliverNext(p, outcome)] + rest) == Final(next, rest))
  {
    var later, steps := st.(now := at), [Tick(at), DeliverNext(p, outcome)] + rest;
    StepKeepsInv(st, Tick(at));
    OneDelivery(later, p, outcome);
    StepKeepsInv(later, DeliverNext(p, outcome));
    hide Inv, RecordRow, RecordResult;
    assert steps[1..] == [DeliverNext(p, outcome)] + rest && steps[1..][1..] == rest;
    assert Next(st, Tick(at)) == later;
    hide Next, Enabled;
  }

  lemma OneDelivery(st: State, p: ProcessId, outcome: Outcome)
    requires Inv(st) && p in st.processes && st.processes[p].phase.Delivering? && st.processes[p].phase.batch != []
    ensures Enabled(st, DeliverNext(p, outcome))
    ensures var next, batch := Next(st, DeliverNext(p, outcome)), st.processes[p].phase.batch;
            && next.rows == RecordRow(st.rows, batch[0], st.processes[p].workerId, outcome, st.now)
            && next.now == st.now
            && p in next.processes && next.processes[p] == st.processes[p].(phase := Delivering(batch[1..]))
  {
    assert PhaseInv(st, p);
    var c := st.processes[p].phase.batch[0];
    assert ClaimInv(st, p, c);
    hide RowInv, QueuedShape, OriginOk, PhaseInv, BackoffSeconds, Clip;
    if st.rows[c.id].leaseOwner != Some(st.processes[p].workerId) {
      assert st.rows[c.id := st.rows[c.id]] == st.rows;
    }
  }

  /** The whole of processPendingDeliveries: claim, then one turn per delivery. */
  lemma ProcessPendingIsARun(st: State, p: ProcessId, ids: seq<RowId>, turns: seq<Turn>)
    requires Inv(st) && Enabled(st, ClaimBatch(p, ids)) && |ids| == |turns| && Timely(st.now, turns)
    ensures Runs(st, [ClaimBatch(p, ids)] + Deliveries(p, turns))
    ensures var end := Final(st, [ClaimBatch(p, ids)] + Deliveries(p, turns));
            && end.rows == DeliverAll(ClaimRows(st.rows, ids, st.processes[p].workerId, st.now), Claims(st.rows, ids),
                                      st.processes[p].workerId, turns)
            && p in end.processes && end.processes[p].phase == PhaseAfter(turns)
  {
    hide Inv, Claimable, Recorded;
    var step := ClaimBatch(p, ids);
    var next := Next(st, step);
    StepKeepsInv(st, step);
    BatchLoopIsARun(next, p, turns);
    var steps := [step] + Deliveries(p, turns);
    assert steps[1..] == Deliveries(p, turns);
  }

  // ------------------------------------------------------------------ receipts

  function ReceiptSteps(p: ProcessId, receipts: seq<Receipt>): seq<Step> {
    if receipts == [] then [] else [ReceiptNext(p, receipts[0])] + ReceiptSteps(p, receipts[1..])
  }

  /** Applying the receipts one after the other is a run of the protocol that leaves nothing to apply and changes
      the rows as ProcessExpoReceipts does. */
  lemma {:induction false} ReceiptsAreARun(st: State, p: ProcessId, receipts: seq<Receipt>)
    requires p in st.processes && st.processes[p].phase.Receipting? && Distinct(st.processes[p].phase.sent)
    requires |st.processes[p].phase.sent| == |receipts|
    requires forall id :: id in st.processes[p].phase.sent ==> id in st.rows
    ensures Runs(st, ReceiptSteps(p, receipts))
    ensures var sent, end := st.processes[p].phase.sent, Final(st, ReceiptSteps(p, receipts));
            && p in end.processes && end.processes[p].phase == Receipting([]) && end.rows.Keys == st.rows.Keys
            && (forall id :: id in st.rows && id !in sent ==> end.rows[id] == st.rows[id])
            && (forall i :: 0 <= i < |sent| ==> end.rows[sent[i]] == Receipted(st.rows[sent[i]], receipts[i]))
    decreases |receipts|
  {
    var sent := st.processes[p].phase.sent;
    if receipts == [] {
      assert sent == [];
    } else {
      hide Receipted, Next, Enabled;
      var step, rest := ReceiptNext(p, receipts[0]), ReceiptSteps(p, receipts[1..]);
      OneReceipt(st, p, receipts[0]);
      assert ([step] + rest)[1..] == rest;
      assert sent[0] !in sent[1..];
      ReceiptsAreARun(Next(st, step), p, receipts[1..]);
      assert forall i :: 1 <= i < |sent| ==> sent[i] == sent[1..][i - 1] && receipts[i] == receipts[1..][i - 1];
    }
  }

  lemma OneReceipt(st: State, p: ProcessId, receipt: Receipt)
    requires p in st.processes && st.processes[p].phase.Receipting? && st.processes[p].phase.sent != []
    requires st.processes[p].phase.sent[0] in st.rows
    ensures Enabled(st, ReceiptNext(p, receipt))
    ensures var next, sent := Next(st, ReceiptNext(p, receipt)), st.processes[p].phase.sent;
            && p in next.processes && next.processes[p].phase == Receipting(sent[1..])
            && next.rows == st.rows[sent[0] := Receipted(st.rows[sent[0]], receipt)]
  {
    hide Receipted;
  }

  // ------------------------------------------------------------------ one run at a time

  /** One process as its timer sees it: the flag, and how many runs of the worker are under way. TryStart
      and EndRun move the flag as `After` does with the guard, however many runs there are. */
  datatype Worker = Worker(running: bool, active: nat)

  datatype Event = Timer | RunEnds

  predicate Possible(w: Worker, event: Event) {
    event.RunEnds? ==> w.active > 0
  }

  /** With the guard of runWorker, or with runs started on every tick. */
  function After(guarded: bool, w: Worker, event: Event): Worker
    requires Possible(w, event)
  {
    match event
    case Timer => if guarded && w.running then w else Worker(true, w.active + 1)
    case RunEnds => Worker(false, w.active - 1)
  }

  predicate History(guarded: bool, w: Worker, events: seq<Event>)
    decreases |events|
  {
    events == [] || (Possible(w, events[0]) && History(guarded, After(guarded, w, events[0]), events[1..]))
  }

  function Outcomes(guarded: bool, w: Worker, events: seq<Event>): Worker
    requires History(guarded, w, events)
    decreases |events|
  {
    if events == [] then w else Outcomes(guarded, After(guarded, w, events[0]), events[1..])
  }

  const STOPPED: Worker := Worker(false, 0)

  lemma {:induction false} FlagCountsRuns(w: Worker, events: seq<Event>)
    requires History(true, w, events) && w.active == if w.running then 1 else 0
    ensures var last := Outcomes(true, w, events); last.active == if last.running then 1 else 0
    decreases |events|
  {
    if events != [] {
      FlagCountsRuns(After(true, w, events[0]), events[1..]);
    }
  }

  ghost predicate OneRunAtATime(guarded: bool) {
    forall events | History(guarded, STOPPED, events) :: Outcomes(guarded, STOPPED, events).active <= 1
  }

  /** No two runs of one worker overlap, whatever the timer does, exactly because of the guard: this is
      why the protocol gives a process a single phase. */
  lemma OneRunExactlyWhenGuarded(guarded: bool)
    ensures OneRunAtATime(guarded) <==> guarded
  {
    if guarded {
      forall events | History(true, STOPPED, events) ensures Outcomes(true, STOPPED, events).active <= 1 {
        FlagCountsRuns(STOPPED, events);
      }
    } else {
      var events := [Timer, Timer];
      assert events[1..] == [Timer] && events[1..][1..] == [];
      assert History(false, STOPPED, events) && Outcomes(false, STOPPED, events) == Worker(true, 2);
    }
  }
}
