/** One row of `notification_deliveries` and the statements that change it
    (apps/api/src/notifications/notifications.service.ts and migration 00033). Times are in
    milliseconds on one clock. */
module DeliveryRows {
  import opened Common

  type WorkerId = nat

  datatype Status = PENDING | SENT | DELIVERED | FAILED | SUPPRESSED

  datatype Row = Row(
    status: Status, attempts: nat, error: Option<string>, isPush: bool, providerId: Option<string>,
    sentAt: Option<int>, nextAttemptAt: int, leaseOwner: Option<WorkerId>, leaseExpiresAt: Option<int>,
    deadLetteredAt: Option<int>)

  const MAX_DELIVERY_ATTEMPTS: nat := 5
  const LEASE_MS: int := 300_000
  const QUIET: string := "Suppressed during quiet hours"

  // ------------------------------------------------------------------ creation

  /** Why a row exists: the channel and what preferences and quiet hours said at creation. */
  datatype Kind =
    | InApp(enabled: bool)
    | Device(isPush: bool, enabled: bool, quiet: bool, digesting: bool)
    | Email(quiet: bool, digesting: bool)

  function SuppressionReason(enabled: bool, quiet: bool, digesting: bool): Option<string> {
    if !enabled then Some("Disabled by user preference")
    else if digesting then Some("Deferred to digest")
    else if quiet then Some(QUIET)
    else None
  }

  function Fresh(status: Status, error: Option<string>, isPush: bool, sentAt: Option<int>, now: int): Row {
    Row(status, 0, error, isPush, None, sentAt, now, None, None, None)
  }

  function NewRow(kind: Kind, now: int): Row {
    match kind
    case InApp(enabled) =>
      if enabled then Fresh(SENT, None, false, Some(now), now)
      else Fresh(SUPPRESSED, Some("Disabled by user preference"), false, None, now)
    case Device(isPush, enabled, quiet, digesting) =>
      Fresh(if enabled && !(quiet || digesting) then PENDING else SUPPRESSED,
            SuppressionReason(enabled, quiet, digesting), isPush, None, now)
    case Email(quiet, digesting) =>
      Fresh(if !(quiet || digesting) then PENDING else SUPPRESSED,
            SuppressionReason(true, quiet, digesting), false, None, now)
  }

  predicate QuietRow(row: Row) {
    row.status == SUPPRESSED && row.error == Some(QUIET)
  }

  /** Created straight into the queue. */
  predicate Queued(kind: Kind) {
    NewRow(kind, 0).status == PENDING
  }

  /** Held back by quiet hours and by nothing else. */
  predicate HeldForQuiet(kind: Kind) {
    QuietRow(NewRow(kind, 0))
  }

  // ------------------------------------------------------------------ claim and result

  predicate Claimable(row: Row, now: int) {
    && row.status == PENDING
    && row.attempts < MAX_DELIVERY_ATTEMPTS
    && row.nextAttemptAt <= now
    && (row.leaseExpiresAt.None? || row.leaseExpiresAt.value <= now)
  }

  function Claimed(row: Row, worker: WorkerId, now: int): Row {
    row.(leaseOwner := Some(worker), leaseExpiresAt := Some(now + LEASE_MS))
  }

  function BackoffSeconds(attempts: int): int {
    Min(30 * Pow2(Max(0, attempts - 1)), 60 * 60)
  }

  datatype Outcome = Sent(providerId: Option<string>) | Threw(message: string)

  /** The first n characters: the source's `slice(0, n)`. */
  function Clip(s: string, n: nat): string {
    if |s| <= n then s else s[..n]
  }

  /** The result update, which the source guards with the row id and the worker's own lease. */
  function Recorded(row: Row, claimedAttempts: nat, worker: WorkerId, outcome: Outcome, now: int): Row {
    if row.leaseOwner != Some(worker) then row
    else
      var attempts := claimedAttempts + 1;
      var freed := row.(attempts := attempts, leaseOwner := None, leaseExpiresAt := None);
      match outcome
      case Sent(providerId) =>
        freed.(status := SENT, providerId := providerId, sentAt := Some(now), error := None)
      case Threw(message) =>
        var failed := attempts >= MAX_DELIVERY_ATTEMPTS;
        freed.(status := if failed then FAILED else PENDING,
               error := Some(Clip(message, 1000)),
               nextAttemptAt := now + BackoffSeconds(attempts) * 1000,
               deadLetteredAt := if failed then Some(now) else None)
  }

  /** The quiet-hours release, which the source guards with the row id alone. */
  function Released(row: Row, now: int): Row {
    row.(status := PENDING, error := None, nextAttemptAt := now, leaseOwner := None, leaseExpiresAt := None)
  }

  datatype Receipt = NoReceipt | ReceiptOk | ReceiptError(message: string)

  function Receipted(row: Row, receipt: Receipt): Row {
    match receipt
    case NoReceipt => row
    case ReceiptOk => row.(status := DELIVERED, error := None)
    case ReceiptError(message) => row.(status := FAILED, error := Some(message))
  }

  predicate AwaitsReceipt(row: Row) {
    row.isPush && row.status == SENT && row.providerId.Some?
  }

  /** A queued row is neither held nor settled, and the two kinds do not overlap. */
  lemma KindsOfRows(kind: Kind, now: int)
    ensures NewRow(kind, now).status == NewRow(kind, 0).status && NewRow(kind, now).error == NewRow(kind, 0).error
    ensures !(Queued(kind) && HeldForQuiet(kind))
  {
  }

  /** The backoff starts at 30 s, doubles per failed attempt and saturates at one hour. */
  lemma BackoffSchedule(attempts: int)
    ensures 30 <= BackoffSeconds(attempts) <= 3600
    ensures attempts <= 1 ==> BackoffSeconds(attempts) == 30
    ensures 1 <= attempts < 7 ==> BackoffSeconds(attempts + 1) == 2 * BackoffSeconds(attempts)
    ensures attempts >= 8 ==> BackoffSeconds(attempts) == 3600
  {
    assert Pow2(7) == 2 * Pow2(6) && Pow2(6) == 2 * Pow2(5) && Pow2(5) == 2 * Pow2(4);
    assert Pow2(4) == 2 * Pow2(3) && Pow2(3) == 2 * Pow2(2) && Pow2(2) == 2 * Pow2(1) && Pow2(1) == 2 * Pow2(0);
    if attempts >= 8 {
      Pow2Grows(7, attempts - 1);
    } else if 1 <= attempts < 7 {
      Pow2Grows(0, attempts - 1);
      Pow2Grows(attempts, 6);
    }
  }
}
