/** How long a lease is exclusive, over whole runs, and the one way a live lease is taken away. */
module DeliveryLeases {
  import opened Common
  import opened DeliveryRows
  import opened Delivery
  import opened DeliveryTheorems

  // ------------------------------------------------------------------ runs only add

  /** Time does not go back, rows keep their origin, and histories only grow. */
  predicate Grows(st: State, next: State, id: RowId) {
    && st.now <= next.now && id in st.rows && id in st.results && id in st.origin
    && id in next.rows && id in next.results && id in next.origin
    && st.results[id] <= next.results[id] && next.origin[id] == st.origin[id]
  }

  lemma StepGrows(st: State, step: Step, id: RowId)
    requires Inv(st) && Enabled(st, step) && id in st.rows
    ensures Grows(st, Next(st, step), id)
  {
    StepOnRow(st, step, id);
    TimeMovesOn(st, step);
    hide Next, Inv, Recorded, Claimed, Released, Receipted;
  }

  lemma TimeMovesOn(st: State, step: Step)
    requires Enabled(st, step)
    ensures st.now <= Next(st, step).now
  {
    hide Recorded, Claimed, Released, Receipted, NewRow;
  }

  lemma {:induction false} RunGrows(st: State, steps: seq<Step>, id: RowId)
    requires Inv(st) && Runs(st, steps) && id in st.rows
    ensures Grows(st, Final(st, steps), id)
    decreases |steps|
  {
    if steps == [] {
      assert st.rows.Keys == st.origin.Keys == st.results.Keys;
    } else {
      hide Inv, Enabled, Next;
      StepGrows(st, steps[0], id);
      StepKeepsInv(st, steps[0]);
      RunGrows(Next(st, steps[0]), steps[1..], id);
    }
  }

  // ------------------------------------------------------------------ leases of queued rows

  predicate LeasedTo(row: Row, worker: WorkerId, expiry: int) {
    row.leaseOwner == Some(worker) && row.leaseExpiresAt == Some(expiry)
  }

  /** Between two points of a run the worker has written no result for the row. */
  predicate NoResultBy(worker: WorkerId, before: seq<Attempt>, after: seq<Attempt>) {
    forall i :: |before| <= i < |after| ==> after[i].worker != worker
  }

  lemma LiveLeaseSurvivesStep(st: State, step: Step, id: RowId, worker: WorkerId, expiry: int)
    requires Inv(st) && Enabled(st, step) && id in st.rows && !HeldForQuiet(st.origin[id])
    requires LeasedTo(st.rows[id], worker, expiry)
    ensures Grows(st, Next(st, step), id)
    ensures Next(st, step).now < expiry && NoResultBy(worker, st.results[id], Next(st, step).results[id]) ==>
              LeasedTo(Next(st, step).rows[id], worker, expiry)
  {
    StepOnRow(st, step, id);
    StepGrows(st, step, id);
    if step.ReleaseNext? {
      HeadHeldIsQuiet(st, step.p);
    }
    if step.DeliverNext? {
      HeadClaimIsUpToDate(st, step.p, step.outcome);
    }
    hide Next, Inv, BackoffSeconds, Grows, HeldForQuiet, Clip;
    var next, row := RowAfter(st, step, id), st.rows[id];
    if next.1 != st.results[id] {
      assert next.1[|st.results[id]|].worker == worker;
    }
  }

  /** Over any run, for a row that was not held for quiet hours: while the clock is before the expiry
      and the holder has written no result, the lease stays with its holder. */
  lemma {:induction false} LiveLeaseStays(st: State, steps: seq<Step>, id: RowId, worker: WorkerId, expiry: int)
    requires Inv(st) && Runs(st, steps) && id in st.rows && id in st.results && !HeldForQuiet(st.origin[id])
    requires LeasedTo(st.rows[id], worker, expiry)
    requires Final(st, steps).now < expiry
    requires id in Final(st, steps).results
    requires NoResultBy(worker, st.results[id], Final(st, steps).results[id])
    ensures id in Final(st, steps).rows && LeasedTo(Final(st, steps).rows[id], worker, expiry)
    decreases |steps|
  {
    if steps != [] {
      var next := Next(st, steps[0]);
      LiveLeaseSurvivesStep(st, steps[0], id, worker, expiry);
      StepKeepsInv(st, steps[0]);
      hide Inv, Enabled, Next, HeldForQuiet, LeasedTo;
      RunGrows(next, steps[1..], id);
      LiveLeaseStays(next, steps[1..], id, worker, expiry);
    }
  }

  // ------------------------------------------------------------------ the exception

  /** Some run gives a row of this kind to another worker while its lease is live and its holder has
      written nothing. */
  ghost predicate CanStealLiveLease(kind: Kind) {
    exists st: State, steps: seq<Step>, id: RowId, worker: WorkerId, expiry: int ::
      Steals(kind, st, steps, id, worker, expiry)
  }

  ghost predicate Steals(kind: Kind, st: State, steps: seq<Step>, id: RowId, worker: WorkerId, expiry: int) {
    && Reachable(st) && Runs(st, steps)
    && id in st.rows && id in st.origin && id in st.results && st.origin[id] == kind
    && LeasedTo(st.rows[id], worker, expiry)
    && var last := Final(st, steps);
       && id in last.rows && id in last.results
       && last.now < expiry && NoResultBy(worker, st.results[id], last.results[id])
       && last.rows[id].leaseOwner.Some? && last.rows[id].leaseOwner != Some(worker)
  }

  /** Both workers are delivering row 7; the second one's lease was released under it. */
  function BothDeliver(kind: Kind, row: Row): State {
    State(0, map[7 := Claimed(Released(row, 0), 0, 0)],
          map[0 := Process(0, Delivering([Claim(7, row.attempts)])), 1 := Process(1, Delivering([Claim(7, row.attempts)]))],
          {0, 1}, map[7 := kind], map[7 := []])
  }

  /** The first worker's release has taken the row from the second, which goes on delivering it. */
  function TakenBack(kind: Kind, row: Row): State {
    State(0, map[7 := Released(row, 0)],
          map[0 := Process(0, Releasing([])), 1 := Process(1, Delivering([Claim(7, row.attempts)]))],
          {0, 1}, map[7 := kind], map[7 := []])
  }

  lemma FirstWorkerReleases(kind: Kind, row: Row)
    ensures var st := SecondHas(kind, row, Delivering([Claim(7, row.attempts)]), []);
            Enabled(st, ReleaseNext(0, false)) && Next(st, ReleaseNext(0, false)) == TakenBack(kind, row)
  {
    hide Released;
    var st := SecondHas(kind, row, Delivering([Claim(7, row.attempts)]), []);
    assert [7][1..] == [];
    assert Next(st, ReleaseNext(0, false)).rows == TakenBack(kind, row).rows;
    assert Next(st, ReleaseNext(0, false)).processes == TakenBack(kind, row).processes;
  }

  lemma FirstWorkerClaims(kind: Kind, row: Row)
    requires row.attempts < MAX_DELIVERY_ATTEMPTS
    ensures var st := TakenBack(kind, row);
            Enabled(st, ClaimBatch(0, [7])) && Next(st, ClaimBatch(0, [7])) == BothDeliver(kind, row)
  {
    var st := TakenBack(kind, row);
    assert Claimable(st.rows[7], 0) && st.rows[7].attempts == row.attempts;
    hide Claimable, Claimed, Released;
    assert ClaimRows(st.rows, [7], 0, 0) == BothDeliver(kind, row).rows;
    assert Claims(st.rows, [7]) == [Claim(7, row.attempts)];
  }

  lemma HeldRowsAreStolen(kind: Kind)
    requires HeldForQuiet(kind)
    ensures CanStealLiveLease(kind)
  {
    BothReadHeld(kind);
    FreshRow(kind);
    var released := Released(NewRow(kind, 0), 0);
    SecondReleases(kind, NewRow(kind, 0));
    SecondClaims(kind, released);
    var row := Claimed(released, 1, 0);
    var st := SecondHas(kind, row, Delivering([Claim(7, 0)]), []);
    FirstWorkerReleases(kind, row);
    FirstWorkerClaims(kind, row);
    hide Enabled, Next, NewRow, Reachable;
    var steps := [ReleaseNext(0, false), ClaimBatch(0, [7])];
    assert steps[1..] == [ClaimBatch(0, [7])] && steps[1..][1..] == [];
    assert Runs(st, steps) && Final(st, steps) == BothDeliver(kind, row);
    assert Steals(kind, st, steps, 7, 1, LEASE_MS);
  }

  /** A live lease can pass to another worker exactly for rows held for quiet hours: the release clears
      the lease without looking at it. */
  lemma StealableExactlyWhenHeldForQuiet(kind: Kind)
    ensures CanStealLiveLease(kind) <==> HeldForQuiet(kind)
  {
    if HeldForQuiet(kind) {
      HeldRowsAreStolen(kind);
    }
    forall st: State, steps: seq<Step>, id: RowId, worker: WorkerId, expiry: int
      | Steals(kind, st, steps, id, worker, expiry)
      ensures HeldForQuiet(kind)
    {
      ReachableStatesKeepInv(st);
      hide Inv, HeldForQuiet;
      if !HeldForQuiet(kind) {
        LiveLeaseStays(st, steps, id, worker, expiry);
      }
    }
  }
}
