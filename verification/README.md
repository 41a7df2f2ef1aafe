# Verified models of NoorixFin's services

This project models the parts of NoorixFin that hold real algorithms or small protocols, and proves
what they guarantee. It is written in Dafny 4.11; `dafny verify dfyconfig.toml` checks all of it.

What is modelled, one module (or a few) per component:

| component | modules |
|---|---|
| statement CSV reader and workspace CSV writer | `Csv` |
| PDF statement writer, and an independent reader of ISO 32000-1 files | `PdfWriter`, `PdfBytes`, `PdfReader`, `PdfRoundTrip`, `PdfSizes` |
| notification delivery: workers, leases, retries, quiet hours, receipts | `DeliveryRows`, `Delivery`, `DeliveryTheorems`, `DeliveryRecords`, `DeliveryLeases`, `DeliveryLiveness`, `DeliveryService` |
| durable error reporter (persist, send, crash, restart) | `Outbox`, `OutboxTheorems`, `OutboxReporter` |
| system event buffer | `Telemetry` |
| account export: chunk writer, its outcomes, download, table paging | `ExportArtifact`, `ExportTheorems`, `ExportOutcomes`, `OffsetPaging`, `TablePaging`, `LivePaging` |
| money arithmetic under IEEE 754 rounding | `Ieee754`, `Money`, `EntryBalance`, `MajorUnits` |
| statement amounts | `ImportAmount` |
| account balances, opening entries, exported amounts | `Ledger`, `LedgerEquation`, `OpeningBalances`, `ExportedAmounts` |
| amount keypad of the mobile app | `Keypad` |
| error fingerprint | `Fingerprint` |
| category seeding by concurrent requests | `Seeding`, `SeedingTheorems`, `SeedingService` |
| performance metrics | `Metrics` |
| cursor pages | `Paging`, `LiveCursor` |

`Common.dfy` holds small shared helpers (`Common`, `Sequences`, `Decimal`).

## How to read the models

- Code that changes things step by step is a class or a method with loops, and its contract ties it to
  a function; the theorems are about that function. Where several processes, a crash or the network
  matter, there is a state machine (`Step`, `Enabled`, `Next`, `Runs`, `Final`): one step is what
  happens between two awaits, and lemmas named `...IsARun` (or the contract of
  `SeedSystemCategories`) place the imperative code inside the machine.
- The database, the clock, the network and the stores are steps or parameters with arbitrary outcomes.
  An assumption is always visible in the statement, as an `Env`, a `requires` or one side of an
  if-and-only-if.
- Where a natural claim is false of the code, the theorem says exactly when it holds and the other side
  is shown by a concrete run or input. The cases are:
  - crash safety of the error queue needs `load()` to succeed
    (`OutboxTheorems.CrashSafeExactlyWhenOwnStoreLoads`), "persist before send" needs every save to succeed
    (`OutboxTheorems.PersistsBeforeSendExactlyWhenOwnStoreSaves`), and both need a store that no other
    reporter writes to, which browser tabs do not have, although the class comment promises them without
    a condition; its two numeric options are clamped, but a NaN batch size lets a
    flush go on for ever (`OutboxReporter.FlushEndsExactlyForNumbers`), and a queue bound that is NaN or a
    fraction is not kept exactly (`Outbox.TrimsExactlyWhenWhole`);
  - the telemetry buffer reports every dropped event only while the service client exists and no insert
    fails (`Telemetry.DropsReportedExactlyWhenNothingFails`);
  - the quiet-hours release has no status guard and can put a sent delivery back in the queue
    (`DeliveryTheorems.ReopensExactlyWhenHeldForQuiet`), or a dead-lettered one that no claim will select
    again (`DeliveryLiveness.StrandedExactlyWhenHeldForQuiet`), and it clears a live lease, so that two
    workers deliver the same row (`DeliveryLeases.StealableExactlyWhenHeldForQuiet`): all of this for rows
    held for quiet hours and no others;
  - the clean-up of a failed export ignores whether its delete worked, and leaves the stored chunks when it
    did not (`ExportOutcomes.FailureLeavesNothingExactlyWhenDeleted`); a READY artifact without chunks is
    possible in one case (`ExportOutcomes.ReadyIsWholeExcept`), and a download of an artifact that expires
    meanwhile ends early without an error (`ExportOutcomes.DownloadIsWholeExactlyWhenRead`);
  - chunks are within 512 KiB, as the export's header comment says, only if every line is
    (`ExportTheorems.ChunksAreBoundedExactlyWhenLinesAre`);
  - offset paging of a table loses or repeats rows when tied order keys span a page boundary, even if nobody
    changes the table (`TablePaging.CompleteExactlyWithoutTiesAcrossPages`); with unique keys it loses rows
    when others are deleted during the read, and repeats rows when others are inserted
    (`LivePaging.NothingMissedExactlyWithoutDeletes`, `LivePaging.NothingRepeatedExactlyWithoutInserts`);
    cursor paging does neither (`LiveCursor.NothingMissed`, `LiveCursor.NothingRepeated`), but skips rows
    that share a key with the last one of a page (`Paging.WalkCompleteExactlyWithoutBoundaryTies`);
  - seeding completes the catalogue only if no read fails and no other request gives an account one of its
    names or takes one away meanwhile (`SeedingTheorems.FinishedMeansCompleteExactlyUndisturbed`), although its comment calls it
    idempotent;
  - a 20-byte cross-reference table is possible only while offsets have ten digits
    (`PdfRoundTrip.PdfRoundTripsExactly`): always up to 48 million lines, never beyond 1440 million
    (`PdfSizes.MillionPagesRoundTrip`, `PdfSizes.ThirtyMillionFullPagesOverflow`);
  - the CSV reader takes a bare CR before an empty line for half of a CRLF, and drops a last
    record that is one empty field without a line break (`Csv.ReadsFieldsExactly`);
  - a table printed cell by cell can lose its last row (`Csv.TableRoundTripExactly`), but the workspace
    export, with its header and eight cells per row, never does (`Csv.WorkspaceCsvRoundTrip`);
  - the apostrophe prefix is not injective (`Csv.InertCollidesExactlyOnPrefixedFormulas`);
  - a negative opening balance, one whose steps failed, or one whose posting the row limit of the API cuts off
    is not the balance shown (`OpeningBalances.OpeningBalanceShown`); the two sides of the listed accounts
    agree only if the list sees everything (`LedgerEquation.EquationShownExactlyWhenAllIsSeen`); the exported
    amount rounds an unbalanced entry and a very large one (`ExportedAmounts.ExportedAmountIsTheTotalDebit`,
    `ExportedAmounts.AmountExactExactlyUpToTheEdge`);
  - `validateBalance` has no range guard: from totals of 2^53 on it can call an unbalanced entry balanced and
    a balanced one unbalanced (`EntryBalance.VerdictExactExactlyWhileSafe`).

## Model

| member | source | states |
|---|---|---|
| Csv.CsvRecords | apps/api/src/imports/imports.service.ts:322-350 | the character loop with its four variables computes the record list that the scanner specification gives, including the unterminated-quote error; the lemmas below are about that specification |
| Csv.RejectedExactlyWhenQuotesAreOdd | apps/api/src/imports/imports.service.ts:329-348 | over all texts, the reader reports an unterminated quote if and only if the text holds an odd number of quote characters |
| Csv.RecordsHaveFields | apps/api/src/imports/imports.service.ts:333-347 | no accepted text yields a record without fields |
| Csv.InertCellIsNoFormula | apps/api/src/imports/workspace-export.service.ts:62-64 | an exported cell never starts with `=`, `+`, `-`, `@`, a tab or a CR: one that would gets an apostrophe in front, and any other is left alone |
| Csv.InertCollidesExactlyOnPrefixedFormulas | apps/api/src/imports/workspace-export.service.ts:62-64 | which two cells become equal through the apostrophe prefix, as an if-and-only-if |
| Csv.CellsStandUnderTheirHeadings | apps/api/src/imports/workspace-export.service.ts:68-89 | the eight headings differ, and every row has the value of a heading at that heading's position |
| Csv.ScanQuotedBody | apps/api/src/imports/workspace-export.service.ts:65 | a cell with its quotes doubled is read back verbatim whatever it contains: quotes, commas, CR and LF (section 2 of RFC 4180) |
| Csv.ScanRecords | apps/api/src/imports/imports.service.ts:322-350 | what the reader makes of any text in the form of section 2 of RFC 4180: fields bare or quoted, line breaks LF, CR or CRLF in any mixture, with or without a final one |
| Csv.ReadsFieldsExactly | apps/api/src/imports/imports.service.ts:322-350 | any such text is accepted, and reads as exactly its fields if and only if no bare CR stands before an empty record that ends in LF, and the last record is not a single empty field without a line break |
| Csv.TableRoundTripExactly | apps/api/src/imports/workspace-export.service.ts:78-92 | a printed table reads back as its neutralised cells if and only if every row has a cell and the last row is not a single empty cell (or the table is empty) |
| Csv.WorkspaceCsvRoundTrip | apps/api/src/imports/workspace-export.service.ts:58-93 | for every list of export rows, reading the exported text gives the header record and then exactly the neutralised cells, and never an unterminated quote |
| Csv.WorkspaceCsvDeterminesCells | apps/api/src/imports/workspace-export.service.ts:58-93 | two exports with the same text have the same number of rows and cells equal up to the apostrophe prefix |
| PdfWriter.CutPages | apps/api/src/imports/workspace-export.service.ts:117-119 | the paging loop yields pages of at most 48 lines as specified |
| PdfWriter.BuildObjects | apps/api/src/imports/workspace-export.service.ts:120-137 | object k is the catalog, the page tree, the font, or the page or content object its number promises |
| PdfWriter.LayOut | apps/api/src/imports/workspace-export.service.ts:138-143 | the recorded offset of object k is the length of everything written before it |
| PdfWriter.BasicPdf | apps/api/src/imports/workspace-export.service.ts:110-151 | the whole writer produces the specified file |
| PdfWriter.PagesPartitionTheLines | apps/api/src/imports/workspace-export.service.ts:117-119 | the pages concatenate back to the lines; every page has 1 to 48 lines and all but the last have 48 |
| PdfBytes.PdfIsAscii | apps/api/src/imports/workspace-export.service.ts:151 | every character written is ASCII for any input lines, so character positions are byte offsets |
| PdfReader.EscapeIsUnitwise | apps/api/src/imports/workspace-export.service.ts:111-116 | the four successive replacements equal escaping each code unit on its own |
| PdfReader.EscapeRoundTrip | apps/api/src/imports/workspace-export.service.ts:111-116 | reading an escaped literal string (section 7.3.4.2 of ISO 32000-1) gives the ASCII-folded line and stops at its closing parenthesis |
| PdfRoundTrip.FileStartXref | apps/api/src/imports/workspace-export.service.ts:144-150 | `startxref` names the byte offset of the `xref` keyword (section 7.5.5) |
| PdfRoundTrip.EntryIsTwentyBytes | apps/api/src/imports/workspace-export.service.ts:145-149 | a cross-reference entry is 20 bytes and holds its offset if and only if the offset has at most ten digits (section 7.5.4) |
| PdfRoundTrip.FileLocates | apps/api/src/imports/workspace-export.service.ts:139-149 | looking object k up in the table at 20 bytes per entry gives the byte offset where `k 0 obj` starts |
| PdfRoundTrip.FirstOverflowIsNotLocated | apps/api/src/imports/workspace-export.service.ts:145-149 | the first offset of eleven digits breaks the lookup |
| PdfRoundTrip.TableRegularExactlyWhenAddressable | apps/api/src/imports/workspace-export.service.ts:144-150 | the table has the fixed layout if and only if every offset has at most ten digits |
| PdfRoundTrip.StreamReads | apps/api/src/imports/workspace-export.service.ts:133-136 | the Length entry is the byte count between `stream` and `endstream` |
| PdfRoundTrip.KidsRead | apps/api/src/imports/workspace-export.service.ts:122-125 | Kids names the page objects and Count their number |
| PdfRoundTrip.PageReads | apps/api/src/imports/workspace-export.service.ts:127-137 | following a page to its Contents gives that page's lines |
| PdfRoundTrip.ShownStream | apps/api/src/imports/workspace-export.service.ts:133 | following the text operators of a content stream (section 9.4 of ISO 32000-1), line i of the page is shown alone on its line, in the selected font, 12 units below line i - 1 |
| PdfRoundTrip.ShownLineIs | apps/api/src/imports/workspace-export.service.ts:110-116 | what is shown of a line are its first 95 code units, each printable ASCII unit as it is and any other as a question mark |
| PdfRoundTrip.LinesFitThePage | apps/api/src/imports/workspace-export.service.ts:117-133 | all lines of a page are within its media box and do not overlap, and the longest ends before the right edge |
| PdfRoundTrip.RootIsFirst | apps/api/src/imports/workspace-export.service.ts:150 | the trailer behind the table repeats its size and names the catalog (section 7.5.5) |
| PdfRoundTrip.PdfRoundTripsExactly | apps/api/src/imports/workspace-export.service.ts:110-151 | a reader that starts at the end of the file and follows only offsets, the trailer, references, lengths and text operators recovers all pages with the place of every line, if and only if every object starts within the first 10^10 bytes |
| PdfSizes.MillionPagesRoundTrip | apps/api/src/imports/workspace-export.service.ts:110-151 | every statement of up to 48 million lines, whatever the lines hold, reads back page for page |
| PdfSizes.FilesUpToTenBillionBytesRoundTrip | apps/api/src/imports/workspace-export.service.ts:138-151 | every statement whose file has at most 10^10 bytes reads back, far more than a string of the JavaScript engine can hold |
| PdfSizes.ThirtyMillionFullPagesOverflow | apps/api/src/imports/workspace-export.service.ts:144-149 | every statement of more than 1440 million lines, even empty ones, has an offset of eleven digits and does not read back |
| DeliveryRows.BackoffSchedule | apps/api/src/notifications/notifications.service.ts:76-78 | 30 s after the first failure, doubling, never above one hour |
| DeliveryService.DeliveryTable.ClaimDeliveries | supabase/migrations/00033_notification_delivery_leases.sql:36-55 | the claim returns the selected ids with their attempt counts and leases exactly those rows to the worker for five minutes: nothing else about them changes, no other row changes, none can be claimed again before the lease expires |
| DeliveryService.NotificationsService.TryStart | apps/api/src/notifications/notifications.service.ts:670-672 | a worker run starts only when the flag is clear, and sets it, as the guarded machine does on a timer tick |
| DeliveryService.NotificationsService.EndRun | apps/api/src/notifications/notifications.service.ts:688-690 | the end of a run clears the flag, as that machine does |
| DeliveryService.OneRunExactlyWhenGuarded | apps/api/src/notifications/notifications.service.ts:670-672 | over all sequences of timer ticks and run ends, never two runs of one worker are under way, if and only if the guard is there; this is why a process of the machine has one phase |
| DeliveryService.NotificationsService.Deliver | apps/api/src/notifications/notifications.service.ts:885-969 | a result is written at its own time and only under the worker's own lease, with status, attempts, backoff, dead-letter time and lease as the row specification says; every other row is unchanged; a lost update or an exception changes nothing |
| DeliveryService.NotificationsService.ReleaseQuietHourDeliveries | apps/api/src/notifications/notifications.service.ts:840-870 | each row read as held becomes pending, due at its time and without error and lease, unless it is still quiet for the recipient or an earlier profile could not be read; no other row and no other field changes |
| DeliveryService.NotificationsService.ProcessExpoReceipts | apps/api/src/notifications/notifications.service.ts:1048-1090 | a good receipt makes its row DELIVERED without an error, a bad one FAILED with its message, and none leaves it; no other row and no other field changes |
| DeliveryService.ReceiptsAreARun | apps/api/src/notifications/notifications.service.ts:1048-1090 | undisturbed, applying the receipts is a run of the machine with the same rows, and leaves none to apply |
| DeliveryService.NotificationsService.ProcessPendingDeliveries | apps/api/src/notifications/notifications.service.ts:872-883 | the claim and then one turn per claimed row, in order, each at its own time, until one delivery throws |
| DeliveryService.ProcessPendingIsARun | apps/api/src/notifications/notifications.service.ts:872-883 | undisturbed, that method is a run of the multi-worker machine with the same table, for every choice of times, lost updates and exceptions |
| Delivery.StepKeepsInv | apps/api/src/notifications/notifications.service.ts:840-969 | every step of every process, with expiry, re-claims, lost results and crashes, keeps the table and history invariant |
| DeliveryTheorems.AttemptsComeFromTheLeaseHolder | apps/api/src/notifications/notifications.service.ts:936-968 | the attempt count of a row changes only by the current lease holder's result, by exactly one, and in step with the history |
| DeliveryTheorems.LiveLeasesAreExclusive | supabase/migrations/00033_notification_delivery_leases.sql:40-55 | in one step, a leased row passes to another worker only by a claim after the lease expired |
| DeliveryLeases.LiveLeaseStays | supabase/migrations/00033_notification_delivery_leases.sql:36-55 | over whole runs, the lease of a row that was not held for quiet hours stays with its holder while the clock is before the expiry and the holder has written no result |
| DeliveryLeases.StealableExactlyWhenHeldForQuiet | apps/api/src/notifications/notifications.service.ts:857-868 | some run gives a row of a kind to a second worker while the first one's lease is live and it has written no result, if and only if the kind is held for quiet hours: the release clears the lease without looking at it |
| DeliveryTheorems.QueuedLeaseEndsWithItsHolder | apps/api/src/notifications/notifications.service.ts:933-968 | a queued row loses its lease only to its holder's result or to another worker's claim |
| DeliveryTheorems.OnlyReleaseReopens | apps/api/src/notifications/notifications.service.ts:857-868 | in one step, a sent, delivered or failed row is unsettled only if it was held for quiet hours, and only by its own quiet-hours release or by a failed delivery of it under its lease |
| DeliveryTheorems.SettledRowsStaySettled | apps/api/src/notifications/notifications.service.ts:872-969 | over whole runs, a settled row that was not held for quiet hours never becomes pending again |
| DeliveryTheorems.QueuedRowLife | apps/api/src/notifications/notifications.service.ts:946-968 | in every reachable state a row inserted as pending has at most five attempts and one success, is pending if and only if all failed and fewer than five, is dead-lettered if and only if five failed, and was retried no sooner than the backoff |
| DeliveryRecords.QueuedRowTellsItsStory | apps/api/src/notifications/notifications.service.ts:933-968 | from its creation on, in every run, a row inserted as pending says exactly what its last result and last receipt were: status, error, provider id, sent time and dead-letter time; DELIVERED after a good receipt, FAILED with the message after a bad one, SENT before any |
| DeliveryRecords.KindsAreDecided | apps/api/src/notifications/notifications.service.ts:150-213 | a row is inserted as pending if and only if its channel is external, enabled, not quiet and not deferred to a digest; it is held for quiet hours if and only if quiet is the only reason |
| DeliveryRecords.NewRowsAreDecided | apps/api/src/notifications/notifications.service.ts:180-213 | what every row is created as: suppressed with its first reason, sent at once inside the app, or waiting |
| DeliveryTheorems.ReopensExactlyWhenHeldForQuiet | apps/api/src/notifications/notifications.service.ts:840-870 | some run settles a row of a kind and later turns it pending, if and only if the kind is held for quiet hours |
| DeliveryLiveness.SendableExactlyWhenAttemptsRemain | supabase/migrations/00033_notification_delivery_leases.sql:38-55 | in every reachable state, whatever workers crashed, a pending row can still be claimed and sent by some continuation if and only if it has attempts left |
| DeliveryLiveness.QueuedRowsAreNeverStranded | supabase/migrations/00033_notification_delivery_leases.sql:38-55 | a row inserted as pending can always still be sent while it is pending |
| DeliveryLiveness.StrandedExactlyWhenHeldForQuiet | apps/api/src/notifications/notifications.service.ts:857-868 | some run leaves a row of a kind pending with all attempts used, if and only if the kind is held for quiet hours |
| Outbox.Configure | packages/observability/src/durable-http-reporter.ts:100-101 | for any numbers as options, also infinite, fractional or NaN: the batch size is the whole part of the option kept in 1..100, 25 by default and 0 exactly for NaN; the queue bound is the option itself in 1..10000, 1000 by default and absent exactly for NaN |
| Outbox.TrimsExactlyWhenWhole | packages/observability/src/durable-http-reporter.ts:112-115 | trimming brings every queue down to maxQueued if and only if that is a whole number; the count of `splice` is truncated |
| Outbox.PushKeepsTheNewest | packages/observability/src/durable-http-reporter.ts:112-115 | after a report is pushed the queue has everything if that is within maxQueued, and otherwise the newest ceil(maxQueued) reports |
| Outbox.LoadKeepsTheNewest | packages/observability/src/durable-http-reporter.ts:102-105 | loading keeps the whole store if that is within maxQueued, and otherwise its newest floor(maxQueued) reports |
| Outbox.StepKeepsInv | packages/observability/src/durable-http-reporter.ts:102-153 | bound, arrival order, the batch in flight and conservation survive every step |
| Outbox.CrashKeepsOnlyTheStore | packages/observability/src/durable-http-reporter.ts:84-108 | a crash leaves nothing but the store: what follows is a fresh process over it |
| OutboxTheorems.OutboxInvariants | packages/observability/src/durable-http-reporter.ts:110-153 | in every run the queue is over its bound by less than one report, and by none when the bound is whole; it is in arrival order, the batch in flight is its first batchSize reports, and what entered is what left, then what is queued; whatever left was in a batch that got a 2xx, or had at least floor(maxQueued) newer reports behind it |
| OutboxTheorems.CrashSafeExactlyWhenOwnStoreLoads | packages/observability/src/durable-http-reporter.ts:102-118 | with a crash or restart at any await and failing saves, every report that was ever in the store is there, was in a batch that got a 2xx, or made room for at least floor(maxQueued) newer ones, if and only if the store never refuses to load and no other reporter writes to it |
| OutboxTheorems.PersistsBeforeSendExactlyWhenOwnStoreSaves | packages/observability/src/durable-http-reporter.ts:110-153 | every batch is in the store while it is sent, if and only if saving never fails and no other reporter writes to the store |
| OutboxReporter.DurableHttpErrorReporter.constructor | packages/observability/src/durable-http-reporter.ts:91-108 | the clamped configuration; and the whole store when it loads and is within the bound, its newest floor(maxQueued) reports when it is not, nothing when it does not load |
| OutboxReporter.DurableHttpErrorReporter.FlushUnsafe | packages/observability/src/durable-http-reporter.ts:133-153 | the flush loop leaves queue, store and delivered reports as specified for any sequence of replies and saves |
| OutboxReporter.DurableHttpErrorReporter.Report | packages/observability/src/durable-http-reporter.ts:110-118 | push, drop the oldest beyond the bound, save, and flush only after a successful save |
| OutboxReporter.FlushConserves | packages/observability/src/durable-http-reporter.ts:133-153 | delivered reports followed by the remaining queue are the queue before the flush |
| OutboxReporter.FlushDrains | packages/observability/src/durable-http-reporter.ts:133-153 | with good replies the queue is empty afterwards if and only if there were at least ceil(n / batchSize) of them |
| OutboxReporter.FlushDeliversExactly | packages/observability/src/durable-http-reporter.ts:133-153 | a flush delivers exactly the batches whose requests got a 2xx, from the front of the queue and in order, and stops at the first request or save that fails; the store holds what was left after the last good turn |
| OutboxReporter.FlushEndsExactlyForNumbers | packages/observability/src/durable-http-reporter.ts:133-153 | the number of requests of a flush is limited by the queue, whatever the replies, if and only if the batch size option is not NaN; with NaN it makes as many requests as there are good replies |
| OutboxReporter.FlushLoopIsARun | packages/observability/src/durable-http-reporter.ts:133-153 | the loop, uninterrupted, is a run of the machine with the same queue and store |
| OutboxReporter.ReportIsARun | packages/observability/src/durable-http-reporter.ts:110-131 | one scheduled report, uninterrupted, is a run of the machine |
| Telemetry.Truncate | apps/api/src/observability/system-events.service.ts:199-201 | a field is cut to its limit, ending in an ellipsis, and changed only when longer |
| Telemetry.RowKeeps | apps/api/src/observability/system-events.service.ts:112-120 | the row of an event has its code, its message up to 2000 characters and its route up to 500 |
| Telemetry.SystemEventsService.Record | apps/api/src/observability/system-events.service.ts:100-134 | the buffer drops its oldest row when full and counts it; nothing is kept once persistence is disabled |
| Telemetry.SystemEventsService.FlushBegin | apps/api/src/observability/system-events.service.ts:141-172 | the buffer and the drop count are taken before the await; the overflow marker follows the batch; a missing client disables persistence and loses the batch |
| Telemetry.SystemEventsService.FlushEnd | apps/api/src/observability/system-events.service.ts:172-196 | how an insert ends changes only the flushing flag, except when it disables persistence |
| Telemetry.StepKeepsInv | apps/api/src/observability/system-events.service.ts:100-196 | bounds, order and both balances survive every step, and so does that at most one insert is in flight, as the flag says |
| Telemetry.TelemetryConserves | apps/api/src/observability/system-events.service.ts:100-196 | in every interleaving of records and flushes: buffer at most 500, batch at most 501, one insert in flight; accepted events in order are those that left plus the buffer; attempted ones are exactly the batches without markers; drops equal those in markers, pending, or lost with a missing client; every marker is stored, lost with its batch, or in flight |
| Telemetry.DisabledExactlyWhenMissing | apps/api/src/observability/system-events.service.ts:100-190 | in every run persistence is disabled if and only if a flush found no client or an insert said that it is missing; nothing is accepted from then on |
| Telemetry.DropsReportedExactlyWhenNothingFails | apps/api/src/observability/system-events.service.ts:141-196 | every dropped event is noted in a stored batch, in one in flight, or still counted, in every run, if and only if the service client is always available and no insert fails |
| ExportArtifact.ArtifactWriter.Flush | apps/api/src/account/export.service.ts:119-131 | a non-empty open chunk becomes the next stored chunk with its sequence, text and byte length; a refused insert changes nothing, and one that is done but answered with an error stores the chunk and ends the export |
| ExportArtifact.ArtifactWriter.Emit | apps/api/src/account/export.service.ts:133-146 | the exact error for every line, and on success the greedy step with all running totals and the hashed text |
| ExportArtifact.CreateArtifact | apps/api/src/account/export.service.ts:148-246 | the error the service reports; a finished export has the greedy chunks and publishes the byte count, row count and hashed text of exactly the emitted lines; and the chunks and status an artifact is left with, as the theorems below decide them |
| ExportOutcomes.FailureLeavesNothingExactlyWhenDeleted | apps/api/src/account/export.service.ts:232-246 | after a failure no chunk remains if and only if the delete succeeded or none had been stored; whatever remains is the beginning of the complete export |
| ExportOutcomes.StatusIsDecided | apps/api/src/account/export.service.ts:197-246 | the service reports success if and only if all lines are written and the completing update is done and seen; the artifact ends READY if and only if all is written and the update is done, seen or with the marking failing; FAILED if and only if no success is reported and the marking succeeds |
| ExportOutcomes.ErrorsHaveCauses | apps/api/src/account/export.service.ts:119-143 | a reported error has its cause: a line over 1 MiB, a failed read or a failed insert |
| ExportOutcomes.ReadyIsWholeExcept | apps/api/src/account/export.service.ts:197-246 | an artifact that is READY has all its chunks, if and only if it is not the case that the completing update was done but answered with an error, the chunks were deleted and the marking failed |
| ExportOutcomes.DownloadIsWholeExactlyWhenRead | apps/api/src/account/export.service.ts:284-296 | a download whose artifact expires or is deleted meanwhile ends normally, and has the whole text if and only if all chunks had been requested by then |
| ExportOutcomes.WritesAllExactlyWhenNothingFails | apps/api/src/account/export.service.ts:119-195 | all lines are written if and only if each is within 1 MiB, the reads succeed, and every insert succeeds that is made: one where a line does not fit the open chunk, and one for what is open at the end |
| ExportArtifact.StreamArtifact | apps/api/src/account/export.service.ts:284-296 | whatever the answers to its requests, reading 32 chunks at a time writes exactly the contents of the pages cut from them, in order, up to a short page or the first error |
| ExportTheorems.PackingIsFaithfulAndGreedy | apps/api/src/account/export.service.ts:133-146 | chunks concatenate to the lines; each is non-empty and within 512 KiB or a single line; no chunk could have taken the next line |
| ExportTheorems.StoredBytesAreTheEmittedText | apps/api/src/account/export.service.ts:121-145 | sequences are 0..n-1, byte lengths are right, and contents in sequence order are exactly the hashed text |
| ExportTheorems.ChunksAreBoundedExactlyWhenLinesAre | apps/api/src/account/export.service.ts:4-8 | every chunk is within 512 KiB if and only if every line is |
| ExportTheorems.ChunkCountIsBoundedBySize | apps/api/src/account/export.service.ts:140 | two or more greedy chunks hold more than floor(n/2) * 512 KiB |
| ExportTheorems.ChunkCountBound | apps/api/src/account/export.service.ts:140 | the same bound for a finished export in terms of its text |
| ExportTheorems.PackingUsesFewestChunks | apps/api/src/account/export.service.ts:133-146 | no division of the lines into consecutive chunks under the same rule has fewer chunks |
| ExportTheorems.ExportReadsBackExactly | apps/api/src/account/export.service.ts:134-145 | downloading and splitting at newlines gives the exported rows in order, if and only if no encoded row contains a newline byte |
| TablePaging.EmitTable | apps/api/src/account/export.service.ts:321-338 | whatever the answers to its requests, the offset loop emits the pages cut from them, up to a short page or the first error |
| TablePaging.CompleteExactlyWithoutTiesAcrossPages | apps/api/src/account/export.service.ts:327-337 | of a table that nobody changes during the read, and over all orders a database may give to tied rows: a read that completes has emitted every row exactly once, if and only if no tie of the order key spans a page boundary |
| TablePaging.UniqueKeyTablesAreComplete | apps/api/src/account/export.service.ts:43-56 | tables ordered by a unique key are read completely while nobody changes them |
| LivePaging.NothingMissedExactlyWithoutDeletes | apps/api/src/account/export.service.ts:321-338 | of a table with unique keys that changes between the requests: every row that is there at all of them is emitted by a read that completes, in all histories, if and only if no row is deleted meanwhile |
| LivePaging.NothingRepeatedExactlyWithoutInserts | apps/api/src/account/export.service.ts:321-338 | and no row is emitted twice, in all histories, if and only if no row is inserted meanwhile |
| OffsetPaging.EndsExactlyWhenOvertaken | apps/api/src/account/export.service.ts:327-337 | such a read ends if and only if a request fails or finds the table no longer than the pages read by then |
| Paging.ClampLimit | packages/domain/src/pagination.ts:58-64 | the limit is in 1..200: the floor of a number below 201, 200 for any larger one, 50 for anything that is no finite number or below 1 |
| Paging.WalkStep | packages/domain/src/pagination.ts:73-86 | one page through the envelope: at most `limit` rows, the cursor of the last, and the rest strictly shorter |
| Paging.PageTellsWhatFollows | packages/domain/src/pagination.ts:73-86 | a page shows the next rows in order, has_more says whether there are further ones, and the cursor is the key of the last row exactly then |
| Paging.WalkCompleteExactlyWithoutBoundaryTies | packages/domain/src/pagination.ts:73-86 | following the cursor to the end terminates and returns every row once in order, if and only if no page ends between two rows with the same key |
| Paging.InsertsAheadAreInvisible | packages/domain/src/pagination.ts:73-86 | rows added or removed ahead of the first row of the walk, at any request, do not change what it returns |
| Paging.DistinctKeysDrain | packages/domain/src/pagination.ts:58-86 | with distinct keys, any caller limit and any changes ahead, the walk returns the initial rows exactly |
| LiveCursor.NothingMissed | packages/domain/src/pagination.ts:8-16 | with distinct keys, a walk that comes to its end returns every row that is in the list at all its requests, whatever is inserted, deleted or changed between them |
| LiveCursor.NothingRepeated | packages/domain/src/pagination.ts:8-16 | and what it returns is newest first, without repetition |
| Paging.NotificationPageIsAPage | apps/api/src/notifications/notifications.service.ts:224-263 | the notification list pages like the shared envelope, so the walk theorems hold of it |
| Fingerprint.BitXorTwice | packages/observability/src/fingerprint.ts:126-128 | xor with the same unit twice is the identity |
| Fingerprint.BitXorBits | packages/observability/src/fingerprint.ts:126-128 | every bit of the xor is set if and only if the two bits differ |
| Fingerprint.KnownValues | packages/observability/src/fingerprint.ts:121-130 | the first half of the empty text and of "a" are the published FNV-1a values |
| Fingerprint.FactorUndone | packages/observability/src/fingerprint.ts:127-129 | multiplication modulo 2^32 by either factor is undone by its inverse |
| Fingerprint.FoldIsBijective | packages/observability/src/fingerprint.ts:124-130 | over any text, each 32-bit half is a bijection of its starting value |
| Fingerprint.OneUnitDecidesTheHalf | packages/observability/src/fingerprint.ts:124-130 | replacing one code unit leaves a half unchanged if and only if the unit is the same |
| Fingerprint.Fnv1a64 | packages/observability/src/fingerprint.ts:121-134 | the loop over code units computes the specified hash |
| Fingerprint.HashIsSixteenHexDigits | packages/observability/src/fingerprint.ts:131-133 | the result is 16 lowercase hex digits from which both halves can be read |
| Fingerprint.OneUnitChangesBothHalves | packages/observability/src/fingerprint.ts:121-134 | texts that differ in at most one code unit agree in either half of the output only when equal |
| Ieee754.RoundsToNearest | packages/money/src/index.ts:142 | the rounding used everywhere yields a 53-bit significand, and no 53-bit number is nearer (roundTiesToEven, section 4.3.1 of IEEE 754-2019) |
| Ieee754.TiesGoToEven | packages/money/src/index.ts:142 | a number exactly between two 53-bit numbers is rounded to the one that is an even multiple of its last place |
| Ieee754.OverflowIsDecided | packages/money/src/index.ts:142 | a rounded number keeps its sign, and is infinite if and only if its magnitude rounds to 2^1024 or more |
| Ieee754.GuardDecidesExactly | packages/money/src/index.ts:146-148 | comparing a rounded result with the largest safe integer decides about the exact result, and lets only exact results through |
| Money.CurrenciesAreDecided | packages/money/src/index.ts:29-57 | which currencies are known, and how many decimal places each has |
| Money.ParseAcceptsExactlySafeIntegers | packages/money/src/index.ts:132-150 | an input is accepted if and only if it is an integer string whose true value is safe; the result is that value |
| Money.SerializeThenParse | packages/money/src/index.ts:132-161 | parsing a serialised safe amount gives it back |
| Money.ParseThenSerialize | packages/money/src/index.ts:132-161 | serialising a parsed amount gives the same text if and only if the text was canonical |
| Money.AddMinorUnits | packages/money/src/index.ts:166-175 | succeeds if and only if every partial sum is safe, with the exact sum |
| Money.SubtractMinorUnits | packages/money/src/index.ts:180-186 | succeeds if and only if the exact difference is safe, with that difference |
| Money.AcceptanceDependsOnOrder | packages/money/src/index.ts:168-173 | the same amounts are accepted in one order and rejected in another |
| EntryBalance.RunningTotalTracksTheSum | packages/money/src/index.ts:217-218 | an unguarded rounded total of non-negative amounts is the exact sum while that is safe, and beyond the safe range exactly from then on |
| EntryBalance.ValidateBalance | packages/money/src/index.ts:199-226 | which posting decides the error, the two totals, that `balanced` compares them, and that it is the exact verdict whenever one exact total is safe |
| EntryBalance.FaultsAreDecided | packages/money/src/index.ts:203-215 | a posting is in order if and only if one side is positive and the other zero; which fault is reported otherwise |
| EntryBalance.VerdictExactExactlyWhileSafe | packages/money/src/index.ts:199-226 | the verdict is right for all faultless entries with a total of at most b, if and only if b is at most 2^53 - 1 |
| EntryBalance.UnbalancedLooksBalanced | packages/money/src/index.ts:217-222 | five faultless postings of safe amounts with totals 2^53 + 1 and 2^53 are called balanced |
| EntryBalance.BalancedLooksUnbalanced | packages/money/src/index.ts:217-222 | eight faultless postings of safe amounts with equal totals of 2^53 + 2 are called unbalanced, because of their order |
| MajorUnits.MatchesExactlyWrittenForms | packages/money/src/index.ts:92-99 | the pattern accepts a text with given groups if and only if the text is those groups written out |
| MajorUnits.MajorStringIsExact | packages/money/src/index.ts:90-116 | a decimal is accepted if and only if the currency is known, it has no more places than the currency and its minor units are safe; the result is exact |
| MajorUnits.MajorStringRejectsOtherText | packages/money/src/index.ts:92-95 | nothing but such a decimal is accepted |
| ImportAmount.ImportIsExact | apps/api/src/imports/imports.service.ts:399-458 | a statement amount is recorded as r if and only if its text is a decimal, signed or not, with commas and white space anywhere, the currency is known, and r is its exact magnitude in minor units, in 1..2^53 - 1 |
| ImportAmount.AmountIsImportedExactly | apps/api/src/imports/imports.service.ts:399-458 | the same for every given sign, whole part and fraction, written out with separators |
| ImportAmount.RefusalsAreDecided | apps/api/src/imports/imports.service.ts:399-458 | which error a refused amount gets: nothing but zeros, unknown currency, places that cannot be represented, out of range |
| ImportAmount.SignIsKept | apps/api/src/imports/imports.service.ts:401-406 | the normalised amount starts with a minus if and only if the first character of the statement's amount that is no separator is one |
| ImportAmount.DecimalToMinorIsExact | apps/api/src/imports/imports.service.ts:440-458 | the same for the conversion alone, on any normalised decimal |
| ImportAmount.AgreesWithMajorString | apps/api/src/imports/imports.service.ts:399-458 | on normalised amounts the money package accepts exactly those the import accepts that have no more places than the currency, with the same magnitude |
| Ledger.ListAccounts | apps/api/src/accounts/accounts.service.ts:133-151 | the single map accumulation gives every account the rounded total of its own postings, with the sign of its normal side |
| Ledger.ShownBalanceIsExact | apps/api/src/accounts/accounts.service.ts:133-151 | while partial sums are safe the shown balance is the exact signed sum |
| Ledger.AccountingEquation | apps/api/src/accounts/accounts.service.ts:106-151 | if every entry balances, the exact debit-normal minus credit-normal balances of the listed accounts, computed from any answer of the database, are minus the net of the postings the list never sees: those the answer leaves out for the row limit, and those on accounts that are not listed |
| LedgerEquation.EquationHoldsWhenAllIsSeen | apps/api/src/accounts/accounts.service.ts:106-151 | if every entry passes `validateBalance` with a safe total, every account with postings is listed, the postings are within the row limit and no balance leaves the safe range on the way, the shown balances of the two sides add up to the same, in whatever order the postings are read |
| LedgerEquation.EquationShownExactlyWhenAllIsSeen | apps/api/src/accounts/accounts.service.ts:106-151 | for which lists of accounts, row limits and ledger sizes that holds of all such ledgers: every account listed and the size within the row limit, or nothing to be seen at all (fewer than two postings, row limit 0, no account listed) |
| OpeningBalances.OpeningEntryIsBalanced | apps/api/src/accounts/accounts.service.ts:289-314 | the opening entry is faultless and balanced for either normal side, with total debit the absolute amount |
| OpeningBalances.AnyAnswerShows | apps/api/src/accounts/accounts.service.ts:127-151 | from any answer of the database, a completed opening is shown by its absolute value, and as zero when the answer leaves its posting out; any other as zero |
| OpeningBalances.OpeningBalanceShown | apps/api/src/accounts/accounts.service.ts:213-324 | whatever the answer, a fresh account shows the requested opening balance, if and only if it is zero, or positive with every step succeeding, the account listed and the postings of listed accounts within the row limit |
| ExportedAmounts.EntryAmount | apps/api/src/imports/workspace-export.service.ts:43-49 | the reduction adds all debits and credits and halves the rounded total |
| ExportedAmounts.ExportedAmountIsTheTotalDebit | apps/api/src/imports/workspace-export.service.ts:42-49 | while debits and credits together are at most 2^53, the exported amount is the total debit if and only if the credits equal it or fall short by one |
| ExportedAmounts.AmountExactExactlyUpToTheEdge | apps/api/src/imports/workspace-export.service.ts:42-49 | the exported amount of a balanced entry is its total debit for all entries whose debits and credits together are at most b, if and only if b is at most 2^53 + 1; beyond, rounding can lose the last unit |
| Keypad.PressShowsNext | apps/mobile/app/add-transaction.tsx:98-111 | every key acts on the string as it acts on whole part, dot and decimals, and keeps the entry well formed |
| Keypad.ReachableExactlyEntries | apps/mobile/app/add-transaction.tsx:98-113 | a string can be typed if and only if it is digits without a redundant leading zero, an optional dot and at most `exponent` decimals |
| Keypad.DisplayIsTheString | apps/mobile/app/add-transaction.tsx:170-173 | after any presses the display equals the string |
| Keypad.DisplayOfAnyText | apps/mobile/app/add-transaction.tsx:170-173 | of any text, typed or not, the display drops the leading zeros, unless it is "0" or starts with "0." |
| Keypad.BackspaceUndoes | apps/mobile/app/add-transaction.tsx:98-111 | after any presses, backspace takes back a press that changed the string |
| Keypad.AcceptedExactly | apps/mobile/app/add-transaction.tsx:122-131 | a typed string is accepted if and only if it does not end in a dot, fits the currency's places and is in range; its value is exact |
| Keypad.SavedAmountReachesTheApi | apps/mobile/app/add-transaction.tsx:115-141 | after any presses, an amount is sent if and only if it does not end in a dot and is in 1..2^53-1 minor units, and the API parser reads exactly the typed amount |
| Seeding.StepKeepsInv | supabase/migrations/00006_categories_alignment.sql:18-27 | every step of every seeder, with failing reads and inserts and with accounts created, deleted and renamed by others, keeps keys and names unique and every category's account in place and of its kind |
| SeedingTheorems.TablesStayConsistent | apps/api/src/categories/categories.service.ts:177-307 | the same for every reachable state |
| SeedingTheorems.FinishedMeansCompleteExactlyUndisturbed | apps/api/src/categories/categories.service.ts:177-307 | with any number of interleaved seeders and other requests creating, deleting and renaming accounts, a seeder that returns without an error leaves all 16 categories present, if and only if none of the three reads fails and no other request gives an account a name of the catalogue or takes one away |
| SeedingTheorems.CompleteCategoriesNeverChange | apps/api/src/categories/categories.service.ts:284-306 | once all 16 are present no run changes the categories, whatever fails |
| SeedingTheorems.CompletedCatalogue | apps/api/src/categories/categories.service.ts:283-296 | a catalogue completed from nothing has eleven expense and five income categories, whatever seeders and other requests do |
| SeedingTheorems.FurtherCallsChangeNothing | apps/api/src/categories/categories.service.ts:184-198 | once all 16 are present, further calls whose first read succeeds change neither table |
| SeedingService.CategoriesService.SeedSystemCategories | apps/api/src/categories/categories.service.ts:177-307 | one call, for any network behaviour, is a run of one seeder of the machine and ends finished or failed in that state; if no account has a catalogue name with the wrong kind, it finishes whenever both inserts are answered, and with the whole catalogue present when nothing fails |
| Metrics.PercentileHasItsRank | apps/api/src/admin/admin.service.ts:1117-1128 | the n-th percentile is an observed latency; at most n in a hundred latencies are below it, and more than n in a hundred are at most it |
| Metrics.PercentilesAreOrdered | apps/api/src/admin/admin.service.ts:1127-1128 | a higher percentile is never smaller |
| Metrics.GetPerformanceMetrics | apps/api/src/admin/admin.service.ts:1117-1179 | the method's totals, percentiles, ranked routes and platform counts are those of the specification |
| Metrics.FillRouteMap | apps/api/src/admin/admin.service.ts:1131-1142 | the map holds for every route the count, latencies and errors of its own rows, in insertion order of the routes |
| Metrics.RouteIsReportedExactly | apps/api/src/admin/admin.service.ts:1131-1156 | every route's line has the number of its rows, the number of server errors among them, and the 50th, 95th and 99th percentile of their latencies |
| Metrics.EveryRowHasItsRoute | apps/api/src/admin/admin.service.ts:1132-1144 | every row has a line for its method and path before the cut to ten |
| Metrics.TotalsAreExact | apps/api/src/admin/admin.service.ts:1117-1125 | the totals count the rows with status 500 and above, and from 400 to 499 |
| Metrics.PlatformIsExact | apps/api/src/admin/admin.service.ts:1161-1165 | a platform's count is the number of rows naming it, or naming none for "unknown" |
| Metrics.RoutesAddUp | apps/api/src/admin/admin.service.ts:1131-1156 | request and server-error counts over all route groups add up to the totals |
| Metrics.PlatformsAddUp | apps/api/src/admin/admin.service.ts:1161-1165 | platform counts add up to the number of requests |
| Metrics.SlowestRoutesDominate | apps/api/src/admin/admin.service.ts:1143-1158 | the reported routes are at most ten, sorted by p95, and together with the omitted ones are all routes, none of the omitted being slower than a reported one |
| Metrics.ErrorRateIsThePercentage | apps/api/src/admin/admin.service.ts:1172 | the error rate is the exact percentage to within half a hundredth |
| Metrics.NothingMeasured | apps/api/src/admin/admin.service.ts:1127-1128 | without rows every figure is zero and no route is reported |

## Left out

- Money.SerializeMinorUnits: prints every integer in full; JavaScript switches to exponent form from 10^21 on, far outside the safe range the API produces.
- Money.ParseMinorUnits: negative zero is taken as zero, and the engine's conversion of a digit string as the correctly rounded one.
- Money.AddMinorUnits: NaN and infinite arguments are not modelled; the guard lets NaN through.
- ImportAmount.DecimalToMinor: is defined on normalised amounts only, the only ones the service passes to it.
- ExportedAmounts.EntryAmount: amounts are integers; the database columns allow no others.
- OpeningBalances.OpeningBalanceShown: the opening amount is a safe integer; `parseInt` of a text that is no number is not modelled.
- Fingerprint.Fnv1a64: is the hash alone; the message and stack normalisation before it is a chain of regular expressions.
- Metrics.GetPerformanceMetrics: percentile index and error rate use exact arithmetic instead of binary64; the engine's sort is represented by a stable sort function, and the rows are those the one query returns, which the row limit of the API cuts off.
- Paging.ToPage: cursors are the ordering keys themselves; base64 encoding and date parsing of cursors are not modelled.
- Csv.CsvRecords: texts are sequences of Dafny characters, without surrogate pairs; the reader and the writer only look at ASCII characters.
- ExportArtifact.CreateArtifact: starts when the artifact row has been inserted; the hash is represented by the text fed into it, JSON encoding by given bytes per row, and the manifest, profile and workspace rows by the row list.
- DeliveryService.DeliveryTable.ClaimDeliveries: any selection of up to 50 claimable rows is allowed, not only the oldest; this covers rows locked by another claim.
- Delivery.Next: one clock serves the database and all workers, and campaign dispatch, alert routing, recurring events and digests appear only as created rows; the digest job's change of the error text of suppressed rows is not a step.
- Outbox.Next: the reporter's redaction, the OTLP encoding and the check that the endpoint is HTTPS are not part of the state.
- Telemetry.SystemEventsService.Record: rows hold only the truncated message and route; the other columns are copied unchanged by the service.
- Seeding.Next: catalogue entries are numbers, a workspace's other ledger accounts are outside the tables, and icons, colours, currency and sort order are not modelled.
- PdfReader.ReadDocument: reads the subset of PDF this writer uses; octal escapes, line continuations, cross-reference streams and incremental updates are refused.
- OFX and QIF parsing, statement dates, column detection in `parseCsv`, and duplicate detection of imports: library regular expressions and date functions.
- `create` in the import service: counts imported and failed rows, one branch each.
- Notification preferences, quiet-hours arithmetic, SMTP, Expo and Web Push calls: outcomes of the delivery steps.
- Supabase queries, row-level security, controllers, React screens other than the keypad, translations and design tokens.
- Redaction, trace context, release info, readiness and profile services: facts of one branch each.
