/** Which pending rows can still be sent, whatever has happened so far. */
module DeliveryLiveness {
  import opened Common
  import opened Sequences
  import opened DeliveryRows
  import opened Delivery
  import opened DeliveryTheorems

  lemma {:induction false} Above(s: set<nat>) returns (n: nat)
    ensures forall x :: x in s ==> x < n
  {
    if s == {} {
      n := 0;
    } else {
      var x :| x in s;
      var m := Above(s - {x});
      n := Max(m, x + 1);
      assert forall y :: y in s ==> y == x || y in s - {x};
    }
  }

  /** Where some run from st leads. */
  ghost predicate Leads(st: State, next: State) {
    exists steps :: Runs(st, steps) && Final(st, steps) == next
  }

  lemma LeadsOn(st: State, mid: State, step: Step)
    requires Leads(st, mid) && Enabled(mid, step)
    ensures Leads(st, Next(mid, step))
  {
    var steps :| Runs(st, steps) && Final(st, steps) == mid;
    hide Enabled, Next;
    RunSnoc(st, steps, step);
  }

  ghost predicate CanStillBeSent(st: State, id: RowId) {
    exists next :: Leads(st, next) && id in next.rows && next.rows[id].status == SENT
  }

  /** Some time later the row is due and no lease on it is live. */
  lemma ClaimableLater(row: Row, now: int) returns (later: int)
    requires row.status == PENDING && row.attempts < MAX_DELIVERY_ATTEMPTS
    ensures now <= later && Claimable(row, later)
  {
    var lease := if row.leaseExpiresAt.Some? then row.leaseExpiresAt.value else now;
    later := Max(now, Max(row.nextAttemptAt, lease));
  }

  /** What a newly started worker leaves as it was: every other process. */
  predicate OthersStay(st: State, next: State) {
    forall q :: q in st.processes ==> q in next.processes && next.processes[q] == st.processes[q]
  }

  /** A new worker gets ready to claim at a later time. */
  lemma NewWorkerReady(st: State, later: int) returns (p: ProcessId, mid: State)
    requires st.now <= later
    ensures Leads(st, mid) && p in mid.processes && mid.processes[p].phase == Releasing([]) && OthersStay(st, mid)
    ensures mid.now == later && mid.rows == st.rows && mid.results == st.results && mid.origin == st.origin
    ensures p !in st.processes
  {
    p := Above(st.processes.Keys);
    var worker := Above(st.usedIds);
    LeadsNowhere(st);
    hide Leads;
    LeadsOn(st, st, Tick(later));
    var s1 := Next(st, Tick(later));
    LeadsOn(st, s1, Spawn(p, worker));
    var s2 := Next(s1, Spawn(p, worker));
    LeadsOn(st, s2, Begin(p));
    var s3 := Next(s2, Begin(p));
    LeadsOn(st, s3, ReadHeld(p, []));
    mid := Next(s3, ReadHeld(p, []));
  }

  /** A worker of its own claims the row once it is due. */
  lemma NewWorkerClaims(st: State, id: RowId) returns (p: ProcessId, mid: State)
    requires id in st.rows && st.rows[id].status == PENDING && st.rows[id].attempts < MAX_DELIVERY_ATTEMPTS
    ensures Leads(st, mid) && p in mid.processes && id in mid.rows && p !in st.processes && OthersStay(st, mid)
    ensures mid.processes[p].phase == Delivering([Claim(id, st.rows[id].attempts)])
    ensures mid.rows[id].leaseOwner == Some(mid.processes[p].workerId)
    ensures mid.results == st.results && mid.origin == st.origin
  {
    var later := ClaimableLater(st.rows[id], st.now);
    var ready;
    p, ready := NewWorkerReady(st, later);
    hide Leads, Claimable;
    LeadsOn(st, ready, ClaimBatch(p, [id]));
    mid := Next(ready, ClaimBatch(p, [id]));
    assert Claims(ready.rows, [id]) == [Claim(id, st.rows[id].attempts)];
  }

  lemma LeadsNowhere(st: State)
    ensures Leads(st, st)
  {
    assert Runs(st, []) && Final(st, []) == st;
  }

  /** A new worker claims the row and its delivery ends as `outcome` says. */
  lemma NewWorkerDelivers(st: State, id: RowId, outcome: Outcome) returns (next: State)
    requires Inv(st) && id in st.rows && st.rows[id].status == PENDING && st.rows[id].attempts < MAX_DELIVERY_ATTEMPTS
    ensures Leads(st, next) && id in next.rows && OthersStay(st, next) && next.origin == st.origin
    ensures next.rows[id].attempts == st.rows[id].attempts + 1
    ensures next.rows[id].status
         == if outcome.Sent? then SENT
            else if st.rows[id].attempts + 1 >= MAX_DELIVERY_ATTEMPTS then FAILED else PENDING
  {
    var p, mid := NewWorkerClaims(st, id);
    assert id in st.results;
    hide Leads, Inv, BackoffSeconds, Clip;
    LeadsOn(st, mid, DeliverNext(p, outcome));
    next := Next(mid, DeliverNext(p, outcome));
  }

  lemma PendingRowCanBeSent(st: State, id: RowId)
    requires Inv(st) && id in st.rows && st.rows[id].status == PENDING && st.rows[id].attempts < MAX_DELIVERY_ATTEMPTS
    ensures CanStillBeSent(st, id)
  {
    hide Leads, Inv;
    var next := NewWorkerDelivers(st, id, Sent(None));
  }

  /** A row that has used up its attempts is never sent again, whatever else happens to it. */
  lemma {:induction false} ExhaustedRowIsNeverSent(st: State, steps: seq<Step>, id: RowId)
    requires Inv(st) && Runs(st, steps) && id in st.rows
    requires st.rows[id].attempts == MAX_DELIVERY_ATTEMPTS && st.rows[id].status != SENT
    ensures id in Final(st, steps).rows && Final(st, steps).rows[id].status != SENT
    decreases |steps|
  {
    if steps != [] {
      ExhaustedStep(st, steps[0], id);
      StepKeepsInv(st, steps[0]);
      hide Inv, Enabled, Next;
      ExhaustedRowIsNeverSent(Next(st, steps[0]), steps[1..], id);
    }
  }

  lemma ExhaustedStep(st: State, step: Step, id: RowId)
    requires Inv(st) && Enabled(st, step) && id in st.rows
    requires st.rows[id].attempts == MAX_DELIVERY_ATTEMPTS && st.rows[id].status != SENT
    ensures var next := Next(st, step);
            id in next.rows && next.rows[id].attempts == MAX_DELIVERY_ATTEMPTS && next.rows[id].status != SENT
  {
    StepOnRow(st, step, id);
    assert RowInv(st.rows[id], st.results[id], st.now);
    hide Next, Inv, BackoffSeconds;
  }

  /** In every reachable state: a pending row can still be sent, by some continuation in which workers
      may have crashed at any point before, exactly when it has attempts left. A row held for quiet
      hours can be pending without any, because the release does not look at its attempts. */
  lemma SendableExactlyWhenAttemptsRemain(st: State, id: RowId)
    requires Reachable(st) && id in st.rows && st.rows[id].status == PENDING
    ensures CanStillBeSent(st, id) <==> st.rows[id].attempts < MAX_DELIVERY_ATTEMPTS
  {
    ReachableStatesKeepInv(st);
    if st.rows[id].attempts < MAX_DELIVERY_ATTEMPTS {
      PendingRowCanBeSent(st, id);
    } else {
      assert RowInv(st.rows[id], st.results[id], st.now);
      hide Inv, Runs, Final;
      forall next | Leads(st, next) ensures !(id in next.rows && next.rows[id].status == SENT) {
        var steps :| Runs(st, steps) && Final(st, steps) == next;
        ExhaustedRowIsNeverSent(st, steps, id);
      }
    }
  }

  /** A row created straight into the queue is never stranded: while it is pending it can be sent. */
  lemma QueuedRowsAreNeverStranded(st: State, id: RowId)
    requires Reachable(st) && id in st.rows && id in st.origin && Queued(st.origin[id])
    requires st.rows[id].status == PENDING
    ensures CanStillBeSent(st, id)
  {
    ReachableStatesKeepInv(st);
    assert RowInv(st.rows[id], st.results[id], st.now);
    QueuedRowsKeepShape(st, id);
    hide BackoffSeconds, Inv;
    SendableExactlyWhenAttemptsRemain(st, id);
  }

  // ------------------------------------------------------------------ stranded rows

  lemma ReachableLeads(st: State, next: State)
    requires Reachable(st) && Leads(st, next)
    ensures Reachable(next)
  {
    var before :| Runs(EMPTY, before) && Final(EMPTY, before) == st;
    var steps :| Runs(st, steps) && Final(st, steps) == next;
    RunsAppend(EMPTY, before, steps);
  }

  lemma {:induction false} RunsAppend(st: State, a: seq<Step>, b: seq<Step>)
    requires Runs(st, a) && Runs(Final(st, a), b)
    ensures Runs(st, a + b) && Final(st, a + b) == Final(Final(st, a), b)
    decreases |a|
  {
    hide Enabled, Next;
    if a == [] {
      assert a + b == b;
    } else {
      RunsAppend(Next(st, a[0]), a[1..], b);
      assert (a + b)[1..] == a[1..] + b;
    }
  }

  /** A pending row without attempts left: no claim selects it. */
  predicate Stranded(st: State, id: RowId, kind: Kind) {
    id in st.rows && id in st.origin && st.origin[id] == kind && st.rows[id].status == PENDING
    && st.rows[id].attempts == MAX_DELIVERY_ATTEMPTS
  }

  ghost predicate CanStrand(kind: Kind) {
    exists st: State, id: RowId :: Reachable(st) && Stranded(st, id, kind)
  }

  /** Process 0 still holds row 7 on its list of rows to release. */
  predicate StaleList(st: State, kind: Kind) {
    0 in st.processes && st.processes[0].phase == Releasing([7]) && 7 in st.rows && 7 in st.origin
    && st.origin[7] == kind
  }

  /** Delivery after delivery fails until the attempts are used up, while the stale list stays. */
  lemma {:induction false} FailuresExhaust(st: State, kind: Kind) returns (last: State)
    requires Reachable(st) && StaleList(st, kind)
    requires st.rows[7].status == PENDING && st.rows[7].attempts < MAX_DELIVERY_ATTEMPTS
    ensures Reachable(last) && StaleList(last, kind) && last.rows[7].attempts == MAX_DELIVERY_ATTEMPTS
    decreases MAX_DELIVERY_ATTEMPTS - st.rows[7].attempts
  {
    ReachableStatesKeepInv(st);
    hide Reachable, Leads, Inv;
    last := NewWorkerDelivers(st, 7, Threw(""));
    ReachableLeads(st, last);
    if last.rows[7].attempts < MAX_DELIVERY_ATTEMPTS {
      last := FailuresExhaust(last, kind);
    }
  }

  lemma HeldRowsStrand(kind: Kind)
    requires HeldForQuiet(kind)
    ensures CanStrand(kind)
  {
    BothReadHeld(kind);
    FreshRow(kind);
    SecondReleases(kind, NewRow(kind, 0));
    var released := SecondHas(kind, Released(NewRow(kind, 0), 0), Releasing([]), []);
    hide Reachable, NewRow;
    var last := FailuresExhaust(released, kind);
    var step := ReleaseNext(0, false);
    StaleRelease(last);
    hide Enabled, Next;
    ReachableNext(last, step, Next(last, step));
    assert Stranded(Next(last, step), 7, kind);
  }

  /** Some run leaves a row of this kind pending without attempts, exactly when the kind is held for
      quiet hours: a stale release revives a dead-lettered row without giving it attempts. */
  lemma StrandedExactlyWhenHeldForQuiet(kind: Kind)
    ensures CanStrand(kind) <==> HeldForQuiet(kind)
  {
    if HeldForQuiet(kind) {
      HeldRowsStrand(kind);
    }
    forall st: State, id: RowId | Reachable(st) && Stranded(st, id, kind) ensures HeldForQuiet(kind) {
      ReachableStatesKeepInv(st);
      assert RowInv(st.rows[id], st.results[id], st.now);
      QueuedRowsKeepShape(st, id);
    }
  }
}
