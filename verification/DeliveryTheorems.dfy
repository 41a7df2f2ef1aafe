/** What the delivery protocol guarantees over every run, and the one way it lets a settled row go
    out again. */
module DeliveryTheorems {
  import opened Common
  import opened DeliveryRows
  import opened Delivery
  import opened Sequences

  ghost predicate Reachable(st: State) {
    exists steps :: Runs(EMPTY, steps) && Final(EMPTY, steps) == st
  }

  lemma ReachableStatesKeepInv(st: State)
    requires Reachable(st)
    ensures Inv(st)
  {
    var steps :| Runs(EMPTY, steps) && Final(EMPTY, steps) == st;
    assert Inv(EMPTY);
    RunsKeepInv(EMPTY, steps);
  }

  // ------------------------------------------------------------------ single steps

  /** What a step makes of one row and its history. */
  function RowAfter(st: State, step: Step, id: RowId): (Row, seq<Attempt>)
    requires Enabled(st, step) && id in st.rows && id in st.results
  {
    var row, results := st.rows[id], st.results[id];
    match step
    case ReleaseNext(p, stillQuiet) =>
      (if !stillQuiet && st.processes[p].phase.held[0] == id then Released(row, st.now) else row, results)
    case ClaimBatch(p, ids) =>
      (if id in ids then Claimed(row, st.processes[p].workerId, st.now) else row, results)
    case DeliverNext(p, outcome) =>
      var c, worker := st.processes[p].phase.batch[0], st.processes[p].workerId;
      if c.id == id && row.leaseOwner == Some(worker) then
        (Recorded(row, c.attempts, worker, outcome, st.now), results + [Attempt(worker, outcome.Sent?, st.now)])
      else (row, results)
    case ReceiptNext(p, receipt) =>
      (if st.processes[p].phase.sent[0] == id then Receipted(row, receipt) else row, results)
    case _ => (row, results)
  }

  lemma StepOnRow(st: State, step: Step, id: RowId)
    requires Inv(st) && Enabled(st, step) && id in st.rows
    ensures id in st.results
    ensures var next := Next(st, step);
            && id in next.rows && id in next.results && id in next.origin
            && next.rows[id] == RowAfter(st, step, id).0 && next.results[id] == RowAfter(st, step, id).1
            && next.origin[id] == st.origin[id]
  {
    hide RowInv, QueuedShape, OriginOk, PhaseInv, IdsInv, OriginInv, Recorded, Claimed, Released, Receipted, NewRow, QuietRow, AwaitsReceipt, Claimable;
  }

  lemma HeadClaimIsUpToDate(st: State, p: ProcessId, outcome: Outcome)
    requires Inv(st) && Enabled(st, DeliverNext(p, outcome))
    ensures ClaimInv(st, p, st.processes[p].phase.batch[0])
  {
  }

  lemma HeadHeldIsQuiet(st: State, p: ProcessId)
    requires Inv(st) && Enabled(st, ReleaseNext(p, false))
    ensures var id := st.processes[p].phase.held[0]; id in st.origin && HeldForQuiet(st.origin[id])
  {
  }

  /** An attempt is counted only by the current lease holder's result, one at a time, and each
      counted attempt is exactly one result in the history. */
  lemma AttemptsComeFromTheLeaseHolder(st: State, step: Step, id: RowId)
    requires Inv(st) && Enabled(st, step) && id in st.rows
    ensures id in Next(st, step).rows && id in Next(st, step).results
    ensures var row, next := st.rows[id], Next(st, step);
            (next.rows[id].attempts == row.attempts && next.results[id] == st.results[id])
            || (step.DeliverNext? && row.leaseOwner == Some(st.processes[step.p].workerId)
                && next.rows[id].attempts == row.attempts + 1
                && next.results[id] == st.results[id] + [Attempt(row.leaseOwner.value, step.outcome.Sent?, st.now)])
  {
    StepOnRow(st, step, id);
    if step.DeliverNext? {
      HeadClaimIsUpToDate(st, step.p, step.outcome);
    }
    hide Next, Inv, BackoffSeconds;
  }

  /** How each statement treats the lease. */
  lemma LeasesUnderUpdates(row: Row, claimed: nat, worker: WorkerId, outcome: Outcome, receipt: Receipt, now: int)
    ensures row.leaseOwner == Some(worker) ==> Recorded(row, claimed, worker, outcome, now).leaseOwner == None
    ensures row.leaseOwner != Some(worker) ==> Recorded(row, claimed, worker, outcome, now) == row
    ensures Released(row, now).leaseOwner == None
    ensures Receipted(row, receipt).leaseOwner == row.leaseOwner
  {
  }

  lemma ClaimedRowsAreClaimable(st: State, p: ProcessId, ids: seq<RowId>, id: RowId)
    requires Enabled(st, ClaimBatch(p, ids)) && id in ids
    ensures id in st.rows && Claimable(st.rows[id], st.now)
  {
  }

  /** In one step a lease passes straight to another worker only by a claim after it expired. */
  lemma LiveLeasesAreExclusive(st: State, step: Step, id: RowId)
    requires Inv(st) && Enabled(st, step) && id in st.rows && st.rows[id].leaseOwner.Some?
    ensures id in Next(st, step).rows
    ensures var lease, lease' := st.rows[id].leaseOwner, Next(st, step).rows[id].leaseOwner;
            lease'.Some? && lease' != lease ==>
              step.ClaimBatch? && id in step.ids && st.rows[id].leaseExpiresAt.Some?
              && st.rows[id].leaseExpiresAt.value <= st.now
  {
    StepOnRow(st, step, id);
    assert RowInv(st.rows[id], st.results[id], st.now);
    var row := st.rows[id];
    if step.ClaimBatch? && id in step.ids {
      ClaimedRowsAreClaimable(st, step.p, step.ids, id);
    }
    if step.DeliverNext? {
      var c := st.processes[step.p].phase.batch[0];
      LeasesUnderUpdates(row, c.attempts, st.processes[step.p].workerId, step.outcome, NoReceipt, st.now);
    }
    LeasesUnderUpdates(row, 0, 0, Sent(None), if step.ReceiptNext? then step.receipt else NoReceipt, st.now);
    hide Next, Inv, Enabled, Recorded, Released, Receipted;
  }

  /** A queued row's lease ends only with its holder's result or by passing to another worker. */
  lemma QueuedLeaseEndsWithItsHolder(st: State, step: Step, id: RowId)
    requires Inv(st) && Enabled(st, step) && id in st.rows && Queued(st.origin[id])
    requires st.rows[id].leaseOwner.Some?
    ensures id in Next(st, step).rows
    ensures Next(st, step).rows[id].leaseOwner == None ==>
              step.DeliverNext? && st.rows[id].leaseOwner == Some(st.processes[step.p].workerId)
              && st.processes[step.p].phase.batch[0].id == id
  {
    StepOnRow(st, step, id);
    if step.ReleaseNext? {
      HeadHeldIsQuiet(st, step.p);
      KindsOfRows(st.origin[id], 0);
    }
    hide Next, Inv, BackoffSeconds;
  }

  lemma QueuedRowsKeepShape(st: State, id: RowId)
    requires Inv(st) && id in st.rows
    ensures Queued(st.origin[id]) ==> QueuedShape(st.rows[id], st.results[id])
    ensures OriginOk(st.rows[id], st.origin[id])
  {
  }

  /** The two steps that can turn a settled row pending: its release, or a failed delivery under a
      lease that outlived a receipt. */
  predicate Unsettles(st: State, step: Step, id: RowId)
    requires Enabled(st, step) && id in st.rows
  {
    || (step.ReleaseNext? && !step.stillQuiet && st.processes[step.p].phase.held[0] == id)
    || (step.DeliverNext? && step.outcome.Threw? && st.processes[step.p].phase.batch[0].id == id
        && st.rows[id].leaseOwner == Some(st.processes[step.p].workerId))
  }

  /** Whatever the row's kind, no other step reopens a settled row; and only rows held for quiet hours
      are ever reopened. */
  lemma OnlyReleaseReopens(st: State, step: Step, id: RowId)
    requires Inv(st) && Enabled(st, step) && id in st.rows && Settled(st.rows[id].status)
    ensures id in Next(st, step).rows && id in Next(st, step).origin && Next(st, step).origin[id] == st.origin[id]
    ensures Settled(Next(st, step).rows[id].status) || (HeldForQuiet(st.origin[id]) && Unsettles(st, step, id))
  {
    StepOnRow(st, step, id);
    QueuedRowsKeepShape(st, id);
    if step.ReleaseNext? {
      HeadHeldIsQuiet(st, step.p);
    }
    hide Next, Inv, BackoffSeconds, NewRow, Clip;
  }

  // ------------------------------------------------------------------ whole runs

  lemma {:induction false} SettledRowsStaySettled(st: State, steps: seq<Step>, id: RowId)
    requires Inv(st) && Runs(st, steps) && id in st.rows
    requires Settled(st.rows[id].status) && !HeldForQuiet(st.origin[id])
    ensures id in Final(st, steps).rows && Settled(Final(st, steps).rows[id].status)
    decreases |steps|
  {
    hide Inv, Settled, HeldForQuiet, Enabled, Next;
    if steps != [] {
      OnlyReleaseReopens(st, steps[0], id);
      StepKeepsInv(st, steps[0]);
      SettledRowsStaySettled(Next(st, steps[0]), steps[1..], id);
    }
  }

  function Successes(results: seq<Attempt>): nat {
    if results == [] then 0 else (if results[0].ok then 1 else 0) + Successes(results[1..])
  }

  lemma {:induction false} FailuresThenOne(results: seq<Attempt>)
    requires forall i :: 0 <= i < |results| - 1 ==> !results[i].ok
    ensures Successes(results) <= 1
    ensures Successes(results) == 1 <==> results != [] && results[|results| - 1].ok
  {
    if results != [] {
      FailuresThenOne(results[1..]);
    }
  }

  /** The life of a row created straight into the queue, in every reachable state: at most five
      attempts and at most one success; pending while all failed and attempts remain; dead-lettered
      exactly after five failures; retries never sooner than the backoff. */
  lemma QueuedRowLife(st: State, id: RowId)
    requires Reachable(st) && id in st.rows && id in st.origin && id in st.results && Queued(st.origin[id])
    ensures var row, results := st.rows[id], st.results[id];
            && row.attempts == |results| <= MAX_DELIVERY_ATTEMPTS
            && Successes(results) <= 1
            && (row.status == PENDING <==> Successes(results) == 0 && |results| < MAX_DELIVERY_ATTEMPTS)
            && (row.deadLetteredAt.Some? <==> Successes(results) == 0 && |results| == MAX_DELIVERY_ATTEMPTS)
            && (row.deadLetteredAt.Some? ==> row.status == FAILED)
            && (forall i :: 0 <= i < |results| - 1 ==> results[i + 1].at >= results[i].at + BackoffSeconds(i + 1) * 1000)
  {
    ReachableStatesKeepInv(st);
    hide BackoffSeconds;
    var results := st.results[id];
    assert RowInv(st.rows[id], results, st.now) && QueuedShape(st.rows[id], results);
    FailuresThenOne(results);
    assert AllFailed(results) <==> results == [] || !results[|results| - 1].ok;
  }

  // ------------------------------------------------------------------ the exception

  /** Some run settles a row of this kind and later turns it pending again. */
  ghost predicate CanReopen(kind: Kind) {
    exists st: State, steps: seq<Step>, id: RowId :: Reopens(kind, st, steps, id)
  }

  ghost predicate Reopens(kind: Kind, st: State, steps: seq<Step>, id: RowId) {
    && Reachable(st) && Inv(st) && Runs(st, steps)
    && id in st.rows && id in st.origin && st.origin[id] == kind && Settled(st.rows[id].status)
    && id in Final(st, steps).rows && Final(st, steps).rows[id].status == PENDING
  }

  lemma {:induction false} RunSnoc(st: State, steps: seq<Step>, step: Step)
    requires Runs(st, steps) && Enabled(Final(st, steps), step)
    ensures Runs(st, steps + [step]) && Final(st, steps + [step]) == Next(Final(st, steps), step)
    decreases |steps|
  {
    hide Enabled, Next;
    if steps == [] {
      assert steps + [step] == [step] && [step][1..] == [];
    } else {
      assert (steps + [step])[1..] == steps[1..] + [step];
      RunSnoc(Next(st, steps[0]), steps[1..], step);
    }
  }

  lemma ReachableNext(st: State, step: Step, next: State)
    requires Reachable(st) && Enabled(st, step) && Next(st, step) == next
    ensures Reachable(next)
  {
    var steps :| Runs(EMPTY, steps) && Final(EMPTY, steps) == st;
    hide Enabled, Next;
    RunSnoc(EMPTY, steps, step);
  }

  /** Two workers that have both read the same held row. */
  function BothHold(kind: Kind): State {
    SecondHas(kind, NewRow(kind, 0), Releasing([7]), [])
  }

  lemma TwoWorkers(kind: Kind) returns (st: State)
    ensures st == BothHold(kind).(processes := map[0 := Process(0, Idle), 1 := Process(1, Idle)])
    ensures Reachable(st)
  {
    hide NewRow;
    assert Runs(EMPTY, []) && Final(EMPTY, []) == EMPTY;
    var s1 := State(0, map[], map[0 := Process(0, Idle)], {0}, map[], map[]);
    ReachableNext(EMPTY, Spawn(0, 0), s1);
    var s2 := s1.(processes := map[0 := Process(0, Idle), 1 := Process(1, Idle)], usedIds := {0, 1});
    ReachableNext(s1, Spawn(1, 1), s2);
    st := s2.(rows := map[7 := NewRow(kind, 0)], origin := map[7 := kind], results := map[7 := []]);
    ReachableNext(s2, Create(7, kind), st);
  }

  /** An idle worker starts a run and reads row 7 among the held rows. */
  lemma WorkerReadsHeld(st: State, p: ProcessId, next: State)
    requires Reachable(st) && 7 in st.rows && QuietRow(st.rows[7])
    requires p in st.processes && st.processes[p].phase == Idle
    requires next == st.(processes := st.processes[p := st.processes[p].(phase := Releasing([7]))])
    ensures Reachable(next)
  {
    hide QuietRow;
    var mid := InPhase(st, p, Preparing);
    ReachableNext(st, Begin(p), mid);
    assert InPhase(mid, p, Releasing([7])).processes == next.processes;
    ReachableNext(mid, ReadHeld(p, [7]), next);
  }

  lemma BothReadHeld(kind: Kind)
    requires HeldForQuiet(kind)
    ensures Reachable(BothHold(kind))
  {
    var idle := TwoWorkers(kind);
    hide NewRow, Enabled, Next;
    var first := idle.(processes := map[0 := Process(0, Releasing([7])), 1 := Process(1, Idle)]);
    WorkerReadsHeld(idle, 0, first);
    WorkerReadsHeld(first, 1, BothHold(kind));
  }

  function SecondHas(kind: Kind, row: Row, phase: Phase, results: seq<Attempt>): State {
    State(0, map[7 := row], map[0 := Process(0, Releasing([7])), 1 := Process(1, phase)], {0, 1},
          map[7 := kind], map[7 := results])
  }

  /** The state after the second worker released, claimed and sent the row. */
  function SecondSent(kind: Kind): State {
    SecondHas(kind, Recorded(Claimed(Released(NewRow(kind, 0), 0), 1, 0), 0, 1, Sent(None), 0), Delivering([]),
              [Attempt(1, true, 0)])
  }

  lemma SecondReleases(kind: Kind, row: Row)
    requires Reachable(SecondHas(kind, row, Releasing([7]), []))
    ensures Reachable(SecondHas(kind, Released(row, 0), Releasing([]), []))
  {
    hide Released;
    assert [7][1..] == [];
    ReachableNext(SecondHas(kind, row, Releasing([7]), []), ReleaseNext(1, false),
                  SecondHas(kind, Released(row, 0), Releasing([]), []));
  }

  lemma SecondClaims(kind: Kind, row: Row)
    requires Reachable(SecondHas(kind, row, Releasing([]), [])) && Claimable(row, 0)
    ensures Reachable(SecondHas(kind, Claimed(row, 1, 0), Delivering([Claim(7, row.attempts)]), []))
  {
    hide Claimable, Claimed;
    var st, next := SecondHas(kind, row, Releasing([]), []), SecondHas(kind, Claimed(row, 1, 0), Delivering([Claim(7, row.attempts)]), []);
    assert ClaimRows(st.rows, [7], 1, 0) == next.rows;
    assert Claims(st.rows, [7]) == [Claim(7, row.attempts)];
    ReachableNext(st, ClaimBatch(1, [7]), next);
  }

  lemma SecondDelivers(kind: Kind, row: Row)
    requires Reachable(SecondHas(kind, row, Delivering([Claim(7, 0)]), [])) && row.leaseOwner == Some(1)
    ensures Reachable(SecondHas(kind, Recorded(row, 0, 1, Sent(None), 0), Delivering([]), [Attempt(1, true, 0)]))
  {
    hide Recorded;
    assert [Claim(7, 0)][1..] == [];
    assert [] + [Attempt(1, true, 0)] == [Attempt(1, true, 0)];
    ReachableNext(SecondHas(kind, row, Delivering([Claim(7, 0)]), []), DeliverNext(1, Sent(None)),
                  SecondHas(kind, Recorded(row, 0, 1, Sent(None), 0), Delivering([]), [Attempt(1, true, 0)]));
  }

  lemma SecondWorkerSends(kind: Kind)
    requires HeldForQuiet(kind)
    ensures Reachable(SecondSent(kind)) && SecondSent(kind).rows[7].status == SENT
  {
    BothReadHeld(kind);
    FreshRow(kind);
    hide NewRow, Enabled, Next;
    var released := Released(NewRow(kind, 0), 0);
    SecondReleases(kind, NewRow(kind, 0));
    SecondClaims(kind, released);
    SecondDelivers(kind, Claimed(released, 1, 0));
  }

  lemma FreshRow(kind: Kind)
    ensures var row := NewRow(kind, 0);
            row.attempts == 0 && row.nextAttemptAt == 0 && row.leaseOwner == None && row.leaseExpiresAt == None
  {
  }

  /** A worker that still lists row 7 releases it, whatever has become of the row. */
  lemma StaleRelease(st: State)
    requires 0 in st.processes && st.processes[0].phase == Releasing([7]) && 7 in st.rows
    ensures Enabled(st, ReleaseNext(0, false))
    ensures var next := Next(st, ReleaseNext(0, false));
            7 in next.rows && next.rows[7] == Released(st.rows[7], st.now) && next.origin == st.origin
  {
  }

  lemma HeldRowsReopen(kind: Kind)
    requires HeldForQuiet(kind)
    ensures CanReopen(kind)
  {
    SecondWorkerSends(kind);
    var st, step := SecondSent(kind), ReleaseNext(0, false);
    ReachableStatesKeepInv(st);
    StaleRelease(st);
    hide Inv, Recorded, NewRow, Claimed, Enabled, Next;
    assert [step][1..] == [];
    assert Runs(st, [step]) && Final(st, [step]) == Next(st, step);
    assert Reopens(kind, st, [step], 7);
  }

  /** The release update has no status guard, so a worker holding a stale list puts a sent row back
      in the queue. That happens to rows held for quiet hours and to no others. */
  lemma ReopensExactlyWhenHeldForQuiet(kind: Kind)
    ensures CanReopen(kind) <==> HeldForQuiet(kind)
  {
    if HeldForQuiet(kind) {
      HeldRowsReopen(kind);
    }
    hide Inv, HeldForQuiet;
    forall st: State, steps: seq<Step>, id: RowId | Reopens(kind, st, steps, id)
      ensures HeldForQuiet(kind)
    {
      if !HeldForQuiet(kind) {
        SettledRowsStaySettled(st, steps, id);
      }
    }
  }
}
