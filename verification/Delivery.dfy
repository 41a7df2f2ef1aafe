/** The delivery worker protocol: any number of processes, each running the worker loop of
    apps/api/src/notifications/notifications.service.ts, share one table. A process can stop at any
    await, leases expire with the clock, and steps of different processes interleave freely. */
module Delivery {
  import opened Common
  import opened DeliveryRows
  import opened Sequences

  type RowId = nat
  type ProcessId = nat

  datatype Claim = Claim(id: RowId, attempts: nat)

  /** Where a process stands in its run; `workerRunning` holds in every phase but Idle. */
  datatype Phase =
    | Idle
    | Preparing
    | Releasing(held: seq<RowId>)
    | Delivering(batch: seq<Claim>)
    | Receipting(sent: seq<RowId>)

  datatype Process = Process(workerId: WorkerId, phase: Phase)

  /** One effective result update, kept as history. */
  datatype Attempt = Attempt(worker: WorkerId, ok: bool, at: int)

  datatype State = State(
    now: int, rows: map<RowId, Row>, processes: map<ProcessId, Process>, usedIds: set<WorkerId>,
    origin: map<RowId, Kind>, results: map<RowId, seq<Attempt>>)

  const EMPTY: State := State(0, map[], map[], {}, map[], map[])

  /** LoseResult is a delivery whose result update never reaches the table; the worker goes on. */
  datatype Step =
    | Tick(to: int)
    | Spawn(p: ProcessId, workerId: WorkerId)
    | Stop(p: ProcessId)
    | Create(id: RowId, kind: Kind)
    | Begin(p: ProcessId)
    | ReadHeld(p: ProcessId, ids: seq<RowId>)
    | ReleaseNext(p: ProcessId, stillQuiet: bool)
    | ClaimBatch(p: ProcessId, ids: seq<RowId>)
    | DeliverNext(p: ProcessId, outcome: Outcome)
    | LoseResult(p: ProcessId)
    | ReadSent(p: ProcessId, ids: seq<RowId>)
    | ReceiptNext(p: ProcessId, receipt: Receipt)
    | Finish(p: ProcessId)
    | Abort(p: ProcessId)

  function InPhase(st: State, p: ProcessId, phase: Phase): State
    requires p in st.processes
  {
    st.(processes := st.processes[p := st.processes[p].(phase := phase)])
  }

  function ClaimRows(rows: map<RowId, Row>, ids: seq<RowId>, worker: WorkerId, now: int): map<RowId, Row> {
    map id | id in rows :: if id in ids then Claimed(rows[id], worker, now) else rows[id]
  }

  function Claims(rows: map<RowId, Row>, ids: seq<RowId>): (claims: seq<Claim>)
    requires forall id :: id in ids ==> id in rows
    ensures |claims| == |ids|
  {
    seq(|ids|, i requires 0 <= i < |ids| => Claim(ids[i], rows[ids[i]].attempts))
  }

  /** What the table and its history become when a worker writes the result of one delivery. */
  function RecordResult(st: State, c: Claim, worker: WorkerId, outcome: Outcome): State {
    if c.id !in st.rows || c.id !in st.results || st.rows[c.id].leaseOwner != Some(worker) then st
    else st.(rows := st.rows[c.id := Recorded(st.rows[c.id], c.attempts, worker, outcome, st.now)],
             results := st.results[c.id := st.results[c.id] + [Attempt(worker, outcome.Sent?, st.now)]])
  }

  predicate Enabled(st: State, step: Step) {
    match step
    case Tick(to) => st.now <= to
    case Spawn(p, workerId) => p !in st.processes && workerId !in st.usedIds
    case Stop(p) => p in st.processes
    case Create(id, kind) => id !in st.rows
    case Begin(p) => p in st.processes && st.processes[p].phase.Idle?
    case ReadHeld(p, ids) =>
      p in st.processes && st.processes[p].phase.Preparing? && |ids| <= 100
      && forall id :: id in ids ==> id in st.rows && QuietRow(st.rows[id])
    case ReleaseNext(p, _) =>
      p in st.processes && st.processes[p].phase.Releasing? && st.processes[p].phase.held != []
      && st.processes[p].phase.held[0] in st.rows
    case ClaimBatch(p, ids) =>
      p in st.processes && st.processes[p].phase == Releasing([]) && |ids| <= 50 && Distinct(ids)
      && forall id :: id in ids ==> id in st.rows && Claimable(st.rows[id], st.now)
    case DeliverNext(p, _) =>
      p in st.processes && st.processes[p].phase.Delivering? && st.processes[p].phase.batch != []
    case LoseResult(p) =>
      p in st.processes && st.processes[p].phase.Delivering? && st.processes[p].phase.batch != []
    case ReadSent(p, ids) =>
      p in st.processes && st.processes[p].phase == Delivering([]) && |ids| <= 100
      && forall id :: id in ids ==> id in st.rows && AwaitsReceipt(st.rows[id])
    case ReceiptNext(p, _) =>
      p in st.processes && st.processes[p].phase.Receipting? && st.processes[p].phase.sent != []
      && st.processes[p].phase.sent[0] in st.rows
    case Finish(p) => p in st.processes && st.processes[p].phase == Receipting([])
    case Abort(p) => p in st.processes
  }

  function Next(st: State, step: Step): State
    requires Enabled(st, step)
  {
    match step
    case Tick(to) => st.(now := to)
    case Spawn(p, workerId) =>
      st.(processes := st.processes[p := Process(workerId, Idle)], usedIds := st.usedIds + {workerId})
    case Stop(p) => st.(processes := st.processes - {p})
    case Create(id, kind) =>
      st.(rows := st.rows[id := NewRow(kind, st.now)], origin := st.origin[id := kind], results := st.results[id := []])
    case Begin(p) => InPhase(st, p, Preparing)
    case ReadHeld(p, ids) => InPhase(st, p, Releasing(ids))
    case ReleaseNext(p, stillQuiet) =>
      var held := st.processes[p].phase.held;
      var rest := InPhase(st, p, Releasing(held[1..]));
      if stillQuiet then rest
      else rest.(rows := rest.rows[held[0] := Released(rest.rows[held[0]], st.now)])
    case ClaimBatch(p, ids) =>
      InPhase(st.(rows := ClaimRows(st.rows, ids, st.processes[p].workerId, st.now)), p, Delivering(Claims(st.rows, ids)))
    case DeliverNext(p, outcome) =>
      var batch := st.processes[p].phase.batch;
      RecordResult(InPhase(st, p, Delivering(batch[1..])), batch[0], st.processes[p].workerId, outcome)
    case LoseResult(p) => InPhase(st, p, Delivering(st.processes[p].phase.batch[1..]))
    case ReadSent(p, ids) => InPhase(st, p, Receipting(ids))
    case ReceiptNext(p, receipt) =>
      var sent := st.processes[p].phase.sent;
      var rest := InPhase(st, p, Receipting(sent[1..]));
      rest.(rows := rest.rows[sent[0] := Receipted(rest.rows[sent[0]], receipt)])
    case Finish(p) => InPhase(st, p, Idle)
    case Abort(p) => InPhase(st, p, Idle)
  }

  /** A run: every step is enabled where it is taken. */
  predicate Runs(st: State, steps: seq<Step>)
    decreases |steps|
  {
    steps == [] || (Enabled(st, steps[0]) && Runs(Next(st, steps[0]), steps[1..]))
  }

  function Final(st: State, steps: seq<Step>): State
    requires Runs(st, steps)
    decreases |steps|
  {
    if steps == [] then st else Final(Next(st, steps[0]), steps[1..])
  }

  // ------------------------------------------------------------------ invariant

  predicate AllFailed(results: seq<Attempt>) {
    forall i :: 0 <= i < |results| ==> !results[i].ok
  }

  /** Tables agree, and every attempt counted is one effective result. */
  predicate RowsInv(st: State) {
    && st.rows.Keys == st.origin.Keys == st.results.Keys
    && (forall id :: id in st.rows ==> RowInv(st.rows[id], st.results[id], st.now))
  }

  predicate RowInv(row: Row, results: seq<Attempt>, now: int) {
    && row.attempts == |results| <= MAX_DELIVERY_ATTEMPTS
    && (row.leaseOwner.Some? ==> row.attempts < MAX_DELIVERY_ATTEMPTS && row.nextAttemptAt <= now)
    && (row.leaseOwner.Some? <==> row.leaseExpiresAt.Some?)
  }

  /** The shape of a queued row: its status says what its results were. */
  predicate QueuedShape(row: Row, results: seq<Attempt>) {
    && (forall i :: 0 <= i < |results| - 1 ==> !results[i].ok)
    && (row.status == PENDING <==> AllFailed(results) && |results| < MAX_DELIVERY_ATTEMPTS)
    && (row.deadLetteredAt.Some? <==> AllFailed(results) && |results| == MAX_DELIVERY_ATTEMPTS)
    && (row.deadLetteredAt.Some? ==> row.status == FAILED)
    && row.status != SUPPRESSED
    && (row.leaseOwner.Some? ==> row.status == PENDING)
    && (row.status == PENDING && results != [] ==>
          row.nextAttemptAt == results[|results| - 1].at + BackoffSeconds(|results|) * 1000)
    && (forall i :: 0 <= i < |results| - 1 ==>
          results[i + 1].at >= results[i].at + BackoffSeconds(i + 1) * 1000)
  }

  predicate OriginInv(st: State)
    requires RowsInv(st)
  {
    forall id :: id in st.rows ==>
      && (Queued(st.origin[id]) ==> QueuedShape(st.rows[id], st.results[id]))
      && OriginOk(st.rows[id], st.origin[id])
  }

  /** Only queued rows and released quiet-hours rows are ever pending or leased. */
  predicate OriginOk(row: Row, kind: Kind) {
    && (row.status == PENDING || row.leaseOwner.Some? ==> Queued(kind) || HeldForQuiet(kind))
    && (QuietRow(row) ==> HeldForQuiet(kind))
  }

  /** A claim still backed by its own lease is up to date. */
  predicate ClaimInv(st: State, p: ProcessId, c: Claim)
    requires p in st.processes
  {
    c.id in st.rows
    && (st.rows[c.id].leaseOwner == Some(st.processes[p].workerId) ==> st.rows[c.id].attempts == c.attempts)
  }

  predicate PhaseInv(st: State, p: ProcessId)
    requires p in st.processes
  {
    match st.processes[p].phase
    case Idle => true
    case Preparing => true
    case Releasing(held) => forall id :: id in held ==> id in st.origin && HeldForQuiet(st.origin[id])
    case Delivering(batch) =>
      (forall i :: 0 <= i < |batch| ==> ClaimInv(st, p, batch[i]))
      && (forall i, j :: 0 <= i < j < |batch| ==> batch[i].id != batch[j].id)
    case Receipting(sent) =>
      forall id :: id in sent ==>
        id in st.origin && id in st.results && (Queued(st.origin[id]) ==> !AllFailed(st.results[id]))
  }

  predicate Settled(s: Status) {
    s == SENT || s == DELIVERED || s == FAILED
  }

  predicate IdsInv(st: State) {
    && (forall p :: p in st.processes ==> st.processes[p].workerId in st.usedIds)
    && (forall p, q :: p in st.processes && q in st.processes && p != q ==>
          st.processes[p].workerId != st.processes[q].workerId)
  }

  predicate Inv(st: State) {
    && RowsInv(st)
    && OriginInv(st)
    && IdsInv(st)
    && (forall p :: p in st.processes ==> PhaseInv(st, p))
  }

  /** What a worker standing by may see change: rows and history only grow, and a lease it holds
      afterwards it held before, on the same attempt. */
  predicate Frame(st: State, next: State, worker: WorkerId) {
    && (forall id :: id in st.rows ==>
          id in next.rows
          && (next.rows[id].leaseOwner == Some(worker) ==>
                st.rows[id].leaseOwner == Some(worker) && next.rows[id].attempts == st.rows[id].attempts))
    && (forall id :: id in st.origin ==> id in next.origin && next.origin[id] == st.origin[id])
    && (forall id :: id in st.results ==> id in next.results && st.results[id] <= next.results[id])
  }

  lemma PhaseSurvives(st: State, next: State, q: ProcessId)
    requires q in st.processes && q in next.processes && next.processes[q] == st.processes[q]
    requires PhaseInv(st, q) && Frame(st, next, st.processes[q].workerId)
    ensures PhaseInv(next, q)
  {
  }

  lemma PhasesSurvive(st: State, next: State)
    requires next.processes == st.processes && forall p :: p in st.processes ==> PhaseInv(st, p)
    requires forall worker :: Frame(st, next, worker)
    ensures forall p :: p in next.processes ==> PhaseInv(next, p)
  {
    hide PhaseInv, Frame;
    forall p | p in next.processes
      ensures PhaseInv(next, p)
    {
      PhaseSurvives(st, next, p);
    }
  }

  /** A process moves on and nothing else changes. */
  lemma PhaseChangeKeepsInv(st: State, p: ProcessId, phase: Phase)
    requires Inv(st) && p in st.processes
    requires PhaseInv(InPhase(st, p, phase), p)
    ensures Inv(InPhase(st, p, phase))
  {
    hide PhaseInv, RowInv, QueuedShape, OriginOk, Queued;
    var next := InPhase(st, p, phase);
    forall q | q in next.processes
      ensures PhaseInv(next, q)
    {
      if q != p {
        PhaseSurvives(st, next, q);
      }
    }
  }

  /** One row and its history are rewritten. */
  function WithRow(st: State, id: RowId, row: Row, results: seq<Attempt>): State {
    st.(rows := st.rows[id := row], results := st.results[id := results])
  }

  predicate RowOk(st: State, id: RowId, row: Row, results: seq<Attempt>)
    requires id in st.origin
  {
    && RowInv(row, results, st.now)
    && (Queued(st.origin[id]) ==> QueuedShape(row, results))
    && OriginOk(row, st.origin[id])
  }

  lemma ChangedRowsOk(st: State, id: RowId, row: Row, results: seq<Attempt>)
    requires Inv(st) && id in st.rows && RowOk(st, id, row, results)
    ensures RowsInv(WithRow(st, id, row, results)) && OriginInv(WithRow(st, id, row, results))
  {
    hide PhaseInv, RowInv, QueuedShape, OriginOk, Queued;
    assert WithRow(st, id, row, results).rows.Keys == st.rows.Keys;
  }

  /** Claims of other leases, and everything that does not look at the row, survive its update. */
  lemma RowChangeKeepsInv(st: State, id: RowId, row: Row, results: seq<Attempt>)
    requires Inv(st) && id in st.rows && RowOk(st, id, row, results)
    requires row.leaseOwner == None || (row.leaseOwner == st.rows[id].leaseOwner && row.attempts == st.rows[id].attempts)
    requires st.results[id] <= results
    ensures Inv(WithRow(st, id, row, results))
  {
    var next := WithRow(st, id, row, results);
    ChangedRowsOk(st, id, row, results);
    hide PhaseInv, RowInv, OriginInv, RowOk, Frame, RowsInv, IdsInv;
    RowChangeFrames(st, id, row, results);
    PhasesSurvive(st, next);
  }

  lemma RowChangeFrames(st: State, id: RowId, row: Row, results: seq<Attempt>)
    requires RowsInv(st) && id in st.rows && st.results[id] <= results
    requires row.leaseOwner == None || (row.leaseOwner == st.rows[id].leaseOwner && row.attempts == st.rows[id].attempts)
    ensures forall worker :: Frame(st, WithRow(st, id, row, results), worker)
  {
  }

  // ------------------------------------------------------------------ the steps keep the invariant

  lemma TickKeepsInv(st: State, to: int)
    requires Inv(st) && st.now <= to
    ensures Inv(st.(now := to))
  {
    hide PhaseInv, QueuedShape, OriginOk, Queued;
    PhasesSurvive(st, st.(now := to));
  }

  lemma SpawnOrStopKeepsInv(st: State, step: Step)
    requires Inv(st) && Enabled(st, step) && (step.Spawn? || step.Stop?)
    ensures Inv(Next(st, step))
  {
    hide RowInv, QueuedShape, OriginOk, Queued;
    var next := Next(st, step);
    forall q | q in next.processes
      ensures PhaseInv(next, q)
    {
      if step.Stop? || q != step.p {
        PhaseSurvives(st, next, q);
      }
    }
  }

  lemma CreateKeepsInv(st: State, id: RowId, kind: Kind)
    requires Inv(st) && id !in st.rows
    ensures Inv(Next(st, Create(id, kind)))
  {
    var next := Next(st, Create(id, kind));
    CreatedRowsOk(st, id, kind);
    hide PhaseInv, RowInv, OriginInv, NewRow, Frame;
    assert forall worker :: Frame(st, next, worker) by { CreateFrames(st, id, kind); }
    PhasesSurvive(st, next);
  }

  lemma CreateFrames(st: State, id: RowId, kind: Kind)
    requires RowsInv(st) && id !in st.rows
    ensures forall worker :: Frame(st, Next(st, Create(id, kind)), worker)
  {
    hide RowInv, NewRow;
  }

  lemma CreatedRowsOk(st: State, id: RowId, kind: Kind)
    requires Inv(st) && id !in st.rows
    ensures RowsInv(Next(st, Create(id, kind))) && OriginInv(Next(st, Create(id, kind)))
  {
    NewRowOk(kind, st.now);
    hide PhaseInv, RowInv, QueuedShape, OriginOk, Queued, NewRow;
    var next := Next(st, Create(id, kind));
    assert next.rows.Keys == st.rows.Keys + {id};
  }

  lemma NewRowOk(kind: Kind, now: int)
    ensures RowInv(NewRow(kind, now), [], now) && OriginOk(NewRow(kind, now), kind)
    ensures Queued(kind) ==> QueuedShape(NewRow(kind, now), [])
    ensures NewRow(kind, now).leaseOwner == None
  {
  }

  lemma ReleasedRowOk(st: State, id: RowId)
    requires Inv(st) && id in st.rows && HeldForQuiet(st.origin[id])
    ensures RowOk(st, id, Released(st.rows[id], st.now), st.results[id])
  {
  }

  lemma ReceiptedRowOk(st: State, id: RowId, receipt: Receipt)
    requires Inv(st) && id in st.rows && (Queued(st.origin[id]) ==> !AllFailed(st.results[id]))
    ensures RowOk(st, id, Receipted(st.rows[id], receipt), st.results[id])
  {
  }

  lemma ReceiptLeavesLease(row: Row, receipt: Receipt)
    ensures Receipted(row, receipt).leaseOwner == row.leaseOwner && Receipted(row, receipt).attempts == row.attempts
  {
  }

  lemma ReleaseKeepsInv(st: State, p: ProcessId, stillQuiet: bool)
    requires Inv(st) && Enabled(st, ReleaseNext(p, stillQuiet))
    ensures Inv(Next(st, ReleaseNext(p, stillQuiet)))
  {
    assert PhaseInv(st, p);
    hide RowOk, OriginInv, RowInv, HeldForQuiet, IdsInv;
    var held := st.processes[p].phase.held;
    assert held[0] in held && forall id :: id in held[1..] ==> id in held;
    var rest := InPhase(st, p, Releasing(held[1..]));
    PhaseChangeKeepsInv(st, p, Releasing(held[1..]));
    if !stillQuiet {
      var row := Released(rest.rows[held[0]], st.now);
      ReleasedRowOk(rest, held[0]);
      RowChangeKeepsInv(rest, held[0], row, rest.results[held[0]]);
      SameHistory(rest, held[0], row);
    }
  }

  lemma ReceiptMovesOn(st: State, p: ProcessId)
    requires Inv(st) && p in st.processes && st.processes[p].phase.Receipting? && st.processes[p].phase.sent != []
    ensures Inv(InPhase(st, p, Receipting(st.processes[p].phase.sent[1..])))
    ensures var id := st.processes[p].phase.sent[0];
            id in st.rows && (Queued(st.origin[id]) ==> !AllFailed(st.results[id]))
  {
    assert PhaseInv(st, p);
    var sent := st.processes[p].phase.sent;
    assert sent[0] in sent && forall i :: i in sent[1..] ==> i in sent;
    hide Queued, AllFailed, RowInv, OriginInv, IdsInv;
    PhaseChangeKeepsInv(st, p, Receipting(sent[1..]));
  }

  lemma ReceiptKeepsInv(st: State, p: ProcessId, receipt: Receipt)
    requires Inv(st) && Enabled(st, ReceiptNext(p, receipt))
    ensures Inv(Next(st, ReceiptNext(p, receipt)))
  {
    ReceiptMovesOn(st, p);
    hide RowOk, OriginInv, Receipted, Queued, AllFailed, RowInv, IdsInv, PhaseInv;
    var sent := st.processes[p].phase.sent;
    var id := sent[0];
    var rest := InPhase(st, p, Receipting(sent[1..]));
    var row := Receipted(rest.rows[id], receipt);
    ReceiptedRowOk(rest, id, receipt);
    ReceiptLeavesLease(rest.rows[id], receipt);
    RowChangeKeepsInv(rest, id, row, rest.results[id]);
    SameHistory(rest, id, row);
  }

  lemma SameHistory(st: State, id: RowId, row: Row)
    requires id in st.rows && id in st.results
    ensures WithRow(st, id, row, st.results[id]) == st.(rows := st.rows[id := row])
  {
  }

  lemma ReadSentKeepsInv(st: State, p: ProcessId, ids: seq<RowId>)
    requires Inv(st) && Enabled(st, ReadSent(p, ids))
    ensures Inv(Next(st, ReadSent(p, ids)))
  {
    forall id | id in ids
      ensures id in st.origin && id in st.results && (Queued(st.origin[id]) ==> !AllFailed(st.results[id]))
    {
      assert RowInv(st.rows[id], st.results[id], st.now);
    }
    PhaseChangeKeepsInv(st, p, Receipting(ids));
  }

  /** A recorded failure or success leaves a queued row in the shape its results demand. */
  lemma RecordedKeepsRowOk(st: State, id: RowId, claimed: nat, worker: WorkerId, outcome: Outcome)
    requires Inv(st) && id in st.rows && st.rows[id].leaseOwner == Some(worker) && st.rows[id].attempts == claimed
    ensures RowOk(st, id, Recorded(st.rows[id], claimed, worker, outcome, st.now),
                  st.results[id] + [Attempt(worker, outcome.Sent?, st.now)])
  {
    hide BackoffSeconds;
    var row, results := st.rows[id], st.results[id];
    var row', results' := Recorded(row, claimed, worker, outcome, st.now), results + [Attempt(worker, outcome.Sent?, st.now)];
    assert RowInv(row, results, st.now) && OriginOk(row, st.origin[id]);
    if Queued(st.origin[id]) {
      assert QueuedShape(row, results);
      assert AllFailed(results);
      assert forall i :: 0 <= i < |results'| - 1 ==> results'[i] == results[i];
      assert results'[|results|].ok == outcome.Sent?;
    }
  }

  lemma BatchMovesOn(st: State, p: ProcessId)
    requires Inv(st) && p in st.processes && st.processes[p].phase.Delivering? && st.processes[p].phase.batch != []
    ensures Inv(InPhase(st, p, Delivering(st.processes[p].phase.batch[1..])))
    ensures ClaimInv(st, p, st.processes[p].phase.batch[0])
  {
    assert PhaseInv(st, p);
    var batch := st.processes[p].phase.batch;
    var rest := InPhase(st, p, Delivering(batch[1..]));
    forall i | 0 <= i < |batch[1..]|
      ensures ClaimInv(rest, p, batch[1..][i])
    {
      assert ClaimInv(st, p, batch[i + 1]);
    }
    PhaseChangeKeepsInv(st, p, Delivering(batch[1..]));
  }

  lemma DeliverKeepsInv(st: State, p: ProcessId, outcome: Outcome)
    requires Inv(st) && Enabled(st, DeliverNext(p, outcome))
    ensures Inv(Next(st, DeliverNext(p, outcome)))
  {
    BatchMovesOn(st, p);
    hide Inv;
    var c, worker := st.processes[p].phase.batch[0], st.processes[p].workerId;
    var rest := InPhase(st, p, Delivering(st.processes[p].phase.batch[1..]));
    if c.id in rest.results && rest.rows[c.id].leaseOwner == Some(worker) {
      RecordedKeepsRowOk(rest, c.id, c.attempts, worker, outcome);
      RowChangeKeepsInv(rest, c.id, Recorded(rest.rows[c.id], c.attempts, worker, outcome, st.now),
                        rest.results[c.id] + [Attempt(worker, outcome.Sent?, st.now)]);
    }
  }

  lemma ClaimKeepsInv(st: State, p: ProcessId, ids: seq<RowId>)
    requires Inv(st) && Enabled(st, ClaimBatch(p, ids))
    ensures Inv(Next(st, ClaimBatch(p, ids)))
  {
    var next := Next(st, ClaimBatch(p, ids));
    ClaimedRowsOk(st, p, ids);
    hide RowInv, QueuedShape, OriginOk, Queued, RowsInv, OriginInv;
    forall q | q in next.processes
      ensures PhaseInv(next, q)
    {
      assert PhaseInv(st, q);
      if q != p {
        assert Frame(st, next, st.processes[q].workerId) by { ClaimFrames(st, p, ids, q); }
        PhaseSurvives(st, next, q);
      } else {
        assert forall i :: 0 <= i < |ids| ==> ids[i] in ids;
      }
    }
  }

  lemma ClaimedRowsOk(st: State, p: ProcessId, ids: seq<RowId>)
    requires Inv(st) && Enabled(st, ClaimBatch(p, ids))
    ensures RowsInv(Next(st, ClaimBatch(p, ids))) && OriginInv(Next(st, ClaimBatch(p, ids)))
  {
    hide BackoffSeconds, Queued, HeldForQuiet;
    var next := Next(st, ClaimBatch(p, ids));
    forall id | id in next.rows
      ensures RowInv(next.rows[id], next.results[id], next.now) && OriginOk(next.rows[id], next.origin[id])
      ensures Queued(next.origin[id]) ==> QueuedShape(next.rows[id], next.results[id])
    {
      assert RowInv(st.rows[id], st.results[id], st.now) && OriginOk(st.rows[id], st.origin[id]);
    }
    assert next.rows.Keys == st.rows.Keys;
  }

  lemma ClaimFrames(st: State, p: ProcessId, ids: seq<RowId>, q: ProcessId)
    requires Inv(st) && Enabled(st, ClaimBatch(p, ids)) && q in st.processes && q != p
    ensures Frame(st, Next(st, ClaimBatch(p, ids)), st.processes[q].workerId)
  {
    hide RowInv, QueuedShape, OriginOk, Queued, PhaseInv;
    assert st.processes[q].workerId != st.processes[p].workerId;
  }

  /** Every enabled step of every process keeps the invariant. */
  lemma StepKeepsInv(st: State, step: Step)
    requires Inv(st) && Enabled(st, step)
    ensures Inv(Next(st, step))
  {
    hide Inv;
    match step
    case Tick(to) => TickKeepsInv(st, to);
    case Spawn(_, _) => SpawnOrStopKeepsInv(st, step);
    case Stop(_) => SpawnOrStopKeepsInv(st, step);
    case Create(id, kind) => CreateKeepsInv(st, id, kind);
    case Begin(p) => PhaseChangeKeepsInv(st, p, Preparing);
    case ReadHeld(p, ids) => ReadHeldKeepsInv(st, p, ids);
    case ReleaseNext(p, stillQuiet) => ReleaseKeepsInv(st, p, stillQuiet);
    case ClaimBatch(p, ids) => ClaimKeepsInv(st, p, ids);
    case DeliverNext(p, outcome) => DeliverKeepsInv(st, p, outcome);
    case LoseResult(p) => BatchMovesOn(st, p);
    case ReadSent(p, ids) => ReadSentKeepsInv(st, p, ids);
    case ReceiptNext(p, receipt) => ReceiptKeepsInv(st, p, receipt);
    case Finish(p) => PhaseChangeKeepsInv(st, p, Idle);
    case Abort(p) => PhaseChangeKeepsInv(st, p, Idle);
  }

  lemma ReadHeldKeepsInv(st: State, p: ProcessId, ids: seq<RowId>)
    requires Inv(st) && Enabled(st, ReadHeld(p, ids))
    ensures Inv(Next(st, ReadHeld(p, ids)))
  {
    PhaseChangeKeepsInv(st, p, Releasing(ids));
  }

  lemma {:induction false} RunsKeepInv(st: State, steps: seq<Step>)
    requires Inv(st) && Runs(st, steps)
    ensures Inv(Final(st, steps))
    decreases |steps|
  {
    hide Inv;
    if steps != [] {
      StepKeepsInv(st, steps[0]);
      RunsKeepInv(Next(st, steps[0]), steps[1..]);
    }
  }
}
