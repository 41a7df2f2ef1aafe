/** What a row of the delivery table says about what happened to it: its status, error, provider id and
    times, told in every reachable state from the last result and the last receipt alone. */
module DeliveryRecords {
  import opened Common
  import opened DeliveryRows
  import opened Delivery
  import opened DeliveryTheorems

  /** The last result written for a row, with its time, and the last receipt since. */
  datatype Seen = Seen(result: Option<(Outcome, int)>, receipt: Option<Receipt>)

  const NOTHING: Seen := Seen(None, None)

  /** A result counts when its worker holds the lease of the row. */
  function See(st: State, step: Step, id: RowId, seen: Seen): Seen
    requires Enabled(st, step)
  {
    match step
    case DeliverNext(p, outcome) =>
      if st.processes[p].phase.batch[0].id == id && id in st.rows
         && st.rows[id].leaseOwner == Some(st.processes[p].workerId)
      then Seen(Some((outcome, st.now)), None)
      else seen
    case ReceiptNext(p, receipt) =>
      if st.processes[p].phase.sent[0] == id && !receipt.NoReceipt? then seen.(receipt := Some(receipt)) else seen
    case _ => seen
  }

  function SeeRun(st: State, steps: seq<Step>, id: RowId, seen: Seen): Seen
    requires Runs(st, steps)
    decreases |steps|
  {
    if steps == [] then seen else SeeRun(Next(st, steps[0]), steps[1..], id, See(st, steps[0], id, seen))
  }

  /** `error` is a message cut to its first thousand characters. */
  predicate IsClipped(error: Option<string>, message: string) {
    error.Some? && error.value <= message && |error.value| == Min(1000, |message|)
  }

  /** What the row says. */
  predicate Tells(row: Row, seen: Seen) {
    match seen.result
    case None =>
      row.status == PENDING && row.error == None && row.providerId == None && row.sentAt == None
      && row.deadLetteredAt == None && seen.receipt == None
    case Some((Sent(providerId), at)) =>
      row.providerId == providerId && row.sentAt == Some(at) && row.deadLetteredAt == None
      && (match seen.receipt
          case None => row.status == SENT && row.error == None
          case Some(ReceiptOk) => row.status == DELIVERED && row.error == None
          case Some(ReceiptError(message)) => row.status == FAILED && row.error == Some(message)
          case Some(NoReceipt) => false)
    case Some((Threw(message), at)) =>
      row.providerId == None && row.sentAt == None && IsClipped(row.error, message) && seen.receipt == None
      && (if row.attempts < MAX_DELIVERY_ATTEMPTS then row.status == PENDING && row.deadLetteredAt == None
          else row.status == FAILED && row.deadLetteredAt == Some(at))
  }

  /** The history agrees with what was seen. */
  predicate Agrees(results: seq<Attempt>, seen: Seen) {
    match seen.result
    case None => results == []
    case Some((outcome, at)) =>
      results != [] && results[|results| - 1].ok == outcome.Sent? && results[|results| - 1].at == at
  }

  /** A worker's receipts are for rows that were sent. */
  lemma ReceiptsAreForSentRows(st: State, step: Step, id: RowId, seen: Seen)
    requires Inv(st) && Enabled(st, step) && step.ReceiptNext? && st.processes[step.p].phase.sent[0] == id
    requires id in st.rows && id in st.results && Queued(st.origin[id]) && Agrees(st.results[id], seen)
    ensures seen.result.Some? && seen.result.value.0.Sent?
  {
    assert PhaseInv(st, step.p);
    QueuedRowsKeepShape(st, id);
    hide Inv, Enabled, OriginOk, RowInv, BackoffSeconds, Queued;
    var results := st.results[id];
    assert !AllFailed(results);
  }

  /** A result of a queued row comes while all before it failed. */
  lemma ResultsComeWhilePending(st: State, step: Step, id: RowId, seen: Seen)
    requires Inv(st) && id in st.rows && id in st.results && Queued(st.origin[id])
    requires st.rows[id].leaseOwner.Some? && Tells(st.rows[id], seen)
    ensures st.rows[id].status == PENDING && (seen.result.None? || seen.result.value.0.Threw?)
    ensures st.rows[id].providerId == None && st.rows[id].sentAt == None && st.rows[id].deadLetteredAt == None
  {
    QueuedRowsKeepShape(st, id);
    hide Inv;
  }

  lemma ClaimedTells(row: Row, worker: WorkerId, now: int, seen: Seen)
    requires Tells(row, seen)
    ensures Tells(Claimed(row, worker, now), seen)
  {
  }

  lemma RecordedTells(row: Row, worker: WorkerId, outcome: Outcome, now: int, seen: Seen)
    requires row.leaseOwner == Some(worker) && row.attempts < MAX_DELIVERY_ATTEMPTS
    requires row.providerId == None && row.sentAt == None && row.deadLetteredAt == None
    ensures Tells(Recorded(row, row.attempts, worker, outcome, now), Seen(Some((outcome, now)), None))
  {
    hide BackoffSeconds;
  }

  lemma ReceiptedTells(row: Row, receipt: Receipt, seen: Seen)
    requires Tells(row, seen) && seen.result.Some? && seen.result.value.0.Sent?
    ensures Tells(Receipted(row, receipt), if receipt.NoReceipt? then seen else seen.(receipt := Some(receipt)))
  {
  }

  /** One more result. */
  lemma ResultTells(st: State, step: Step, id: RowId, seen: Seen)
    requires Inv(st) && Enabled(st, step) && id in st.rows && id in st.results && Queued(st.origin[id])
    requires Tells(st.rows[id], seen) && step.DeliverNext?
    requires st.processes[step.p].phase.batch[0].id == id && st.rows[id].leaseOwner == Some(st.processes[step.p].workerId)
    ensures var after := RowAfter(st, step, id);
            Tells(after.0, Seen(Some((step.outcome, st.now)), None))
            && Agrees(after.1, Seen(Some((step.outcome, st.now)), None))
  {
    ResultsComeWhilePending(st, step, id, seen);
    HeadClaimIsUpToDate(st, step.p, step.outcome);
    assert RowInv(st.rows[id], st.results[id], st.now);
    RecordedTells(st.rows[id], st.processes[step.p].workerId, step.outcome, st.now, seen);
    hide Inv, Tells, Recorded;
  }

  lemma QueuedRowsAreNotReleased(st: State, p: ProcessId, id: RowId)
    requires Inv(st) && Enabled(st, ReleaseNext(p, false)) && id in st.origin && Queued(st.origin[id])
    ensures st.processes[p].phase.held[0] != id
  {
    HeadHeldIsQuiet(st, p);
    KindsOfRows(st.origin[id], 0);
    hide Inv, HeldForQuiet, Queued;
  }

  lemma StepTells(st: State, step: Step, id: RowId, seen: Seen)
    requires Inv(st) && Enabled(st, step) && id in st.rows && id in st.results && id in st.origin
    requires Queued(st.origin[id]) && Tells(st.rows[id], seen) && Agrees(st.results[id], seen)
    ensures var after := RowAfter(st, step, id);
            Tells(after.0, See(st, step, id, seen)) && Agrees(after.1, See(st, step, id, seen))
  {
    hide Inv, Tells, Agrees, Released, Receipted, Recorded, Claimed, Queued, QuietRow, Claimable, AwaitsReceipt;
    match step
    case ReleaseNext(p, stillQuiet) =>
      if !stillQuiet {
        QueuedRowsAreNotReleased(st, p, id);
      }
    case ClaimBatch(p, ids) =>
      ClaimedTells(st.rows[id], st.processes[p].workerId, st.now, seen);
    case ReceiptNext(p, receipt) =>
      if st.processes[p].phase.sent[0] == id {
        ReceiptsAreForSentRows(st, step, id, seen);
        ReceiptedTells(st.rows[id], receipt, seen);
        ReceiptAgrees(st.results[id], receipt, seen);
      }
    case DeliverNext(p, outcome) =>
      if st.processes[p].phase.batch[0].id == id && st.rows[id].leaseOwner == Some(st.processes[p].workerId) {
        ResultTells(st, step, id, seen);
      }
    case _ =>
  }

  lemma ReceiptAgrees(results: seq<Attempt>, receipt: Receipt, seen: Seen)
    requires Agrees(results, seen)
    ensures Agrees(results, seen.(receipt := Some(receipt)))
  {
  }

  lemma {:induction false} RunTells(st: State, steps: seq<Step>, id: RowId, seen: Seen)
    requires Inv(st) && Runs(st, steps) && id in st.rows && id in st.results && id in st.origin && Queued(st.origin[id])
    requires Tells(st.rows[id], seen) && Agrees(st.results[id], seen)
    ensures id in Final(st, steps).rows && Tells(Final(st, steps).rows[id], SeeRun(st, steps, id, seen))
    decreases |steps|
  {
    hide Inv, Enabled, Next, Tells, Agrees, Queued, See, RowAfter;
    if steps != [] {
      StepOnRow(st, steps[0], id);
      StepTells(st, steps[0], id, seen);
      StepKeepsInv(st, steps[0]);
      RunTells(Next(st, steps[0]), steps[1..], id, See(st, steps[0], id, seen));
    }
  }

  /** From its creation on, in every run and whatever all workers do, a row that was queued says exactly what
      its last result and its last receipt were: pending with nothing filled in before the first; with the
      provider id and time of its delivery, and SENT, DELIVERED after a good receipt or FAILED with the
      message of a bad one; with the error of its last failure, and pending or dead-lettered at that time. */
  lemma QueuedRowTellsItsStory(st: State, id: RowId, kind: Kind, steps: seq<Step>)
    requires Reachable(st) && Enabled(st, Create(id, kind)) && Queued(kind)
    requires Runs(Next(st, Create(id, kind)), steps)
    ensures var created := Next(st, Create(id, kind));
            id in Final(created, steps).rows
            && Tells(Final(created, steps).rows[id], SeeRun(created, steps, id, NOTHING))
  {
    ReachableStatesKeepInv(st);
    StepKeepsInv(st, Create(id, kind));
    var created := Next(st, Create(id, kind));
    FreshRowTells(kind, st.now);
    assert created.results[id] == [];
    hide Inv, Tells, Queued, NewRow, Reachable;
    RunTells(created, steps, id, NOTHING);
  }

  lemma FreshRowTells(kind: Kind, now: int)
    requires Queued(kind)
    ensures Tells(NewRow(kind, now), NOTHING)
  {
  }

  /** Which rows are queued and which are held for quiet hours. */
  lemma KindsAreDecided(kind: Kind)
    ensures Queued(kind) <==>
              match kind
              case InApp(_) => false
              case Device(_, enabled, quiet, digesting) => enabled && !quiet && !digesting
              case Email(quiet, digesting) => !quiet && !digesting
    ensures HeldForQuiet(kind) <==>
              match kind
              case InApp(_) => false
              case Device(_, enabled, quiet, digesting) => enabled && quiet && !digesting
              case Email(quiet, digesting) => quiet && !digesting
  {
  }

  /** Whether the recipient wants this channel at all; e-mail rows are created only if so. */
  predicate IsWanted(kind: Kind) {
    match kind
    case InApp(enabled) => enabled
    case Device(_, enabled, _, _) => enabled
    case Email(_, _) => true
  }

  /** Whether the notification waits for a digest, or it is quiet for the recipient; neither concerns the row
      inside the app. */
  predicate IsDigested(kind: Kind) {
    (kind.Device? || kind.Email?) && kind.digesting
  }

  predicate IsQuiet(kind: Kind) {
    (kind.Device? || kind.Email?) && kind.quiet
  }

  /** What every row is created as: an unwanted one suppressed for that reason, else a digested one, else a quiet
      one; of the others the row inside the app is sent at once, and the rest wait, due at once. */
  lemma NewRowsAreDecided(kind: Kind, now: int)
    ensures var row := NewRow(kind, now);
            && row.attempts == 0 && row.nextAttemptAt == now && row.leaseOwner == None && row.leaseExpiresAt == None
            && row.providerId == None && row.deadLetteredAt == None && (row.isPush <==> kind.Device? && kind.isPush)
            && (row.status == SUPPRESSED <==> !IsWanted(kind) || IsDigested(kind) || IsQuiet(kind))
            && (row.status != SUPPRESSED ==> row.error == None && row.status == if kind.InApp? then SENT else PENDING)
            && (row.sentAt == if row.status == SENT then Some(now) else None)
            && (row.error == Some("Disabled by user preference") <==> !IsWanted(kind))
            && (row.error == Some("Deferred to digest") <==> IsWanted(kind) && IsDigested(kind))
            && (row.error == Some(QUIET) <==> IsWanted(kind) && !IsDigested(kind) && IsQuiet(kind))
  {
    assert "Disabled by user preference"[0] == 'D' && "Deferred to digest"[1] == 'e' && QUIET[0] == 'S';
    assert "Disabled by user preference"[1] == 'i';
  }
}
