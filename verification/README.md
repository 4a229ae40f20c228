# Verified model of the settlement backend's idempotent work

The backend is built from pieces that must survive retries, crashes and concurrent workers. This project
models the six that carry the logic and proves what each is for:

- **Reconciliation runner** (`Reconciliation*.dfy`, `Decimal.dfy`, `Digits.dfy`): a batch loop that compares
  nine-decimal amounts, writes corrections and saves checkpoints. Its durable behaviour is a list of effects,
  so a crash is a prefix of that list. The runner, its source and its checkpoint store are classes proved to
  perform exactly that list; the theorems are about any number of runs, each stopped anywhere.
- **Settlement outbox** (`SettlementOutbox.dfy`, `Outbox*.dfy`): rows claimed under lease tokens, handled and
  acknowledged. The in-memory store and the delivery service are classes; many workers, slow and crashed ones
  included, are a history of operations in any order.
- **Indexer ingestion** (`JsonText.dfy`, `CanonicalJson.dfy`, `CanonicalSpelling.dfy`, `EventFingerprint.dfy`,
  `EventBodies.dfy`, `ProcessedEvents.dfy`, `Ingestion.dfy`, `SqlEventClaims.dfy`): from a webhook body to its event,
  the canonical JSON printer that is the event's identity, a decoder that undoes it, and the claim / complete / fail
  ledger under interleaved calls, throwing storage and dying processes.
- **Metering checkpoint** (`Metering.dfy`, `MeteringTransactions.dfy`): contiguous acceptance per stream, as an
  atomic scan and as a multi-statement transaction under an advisory lock.
- **CSV export** (`Csv.dfy`, `StreamCsv.dfy`): the writer, and a reader written from section 2 of RFC 4180.
- **Stream paging** (`Streams.dfy`, `StreamExport.dfy`): the keyset-paged export loop over a table that may
  change between pages.

`Prelude.dfy` and `Sorting.dfy` hold shared vocabulary: options, filtering and the stable sort behind
`Array.prototype.sort`.

Strings whose encoding matters (JSON) are sequences of UTF-16 code units; elsewhere they are Dafny strings.
Times are integers in milliseconds, and clocks, handler outcomes, storage faults, crash points and the
database's interleavings are inputs, so every theorem holds for all of them.

## Where code and documentation disagree

The model follows the code. These promises turn out not to hold, and the lemmas say exactly when they do:

- `docs/settlement-outbox.md:20` says a worker never acknowledges a row with an expired lease. The deadline is
  never looked at: an acknowledgement is accepted exactly while the claim is the row's latest
  (`OutboxLeases.AcceptedWhileCurrent`, with the run `OutboxLeases.ExpiredLeaseAccepted`).
- `docs/settlement-outbox.md:13` says claiming increments the attempt count and a row dies at `max_attempts`.
  The SQL claim does not count, so under it a poison message is retried for ever
  (`OutboxPoison.SqlPoisonNeverDies`, against `OutboxPoison.InMemoryPoisonDies`).
- The SQL event claim reads its own fresh insert back as somebody else's claim, so over a table without failed rows
  no event is ever accepted, and it claims a failed row without marking it, so such a row can be accepted twice.
  At most one acceptance holds exactly where there can be none (`SqlEventClaims.AcceptedOnceIffNever`).
- A `duplicate` reply does not imply that the event was accepted: a `complete` that takes effect and then throws
  leaves a window (`Ingestion.PhantomDuplicate`; `Ingestion.TrustedIffHonest` gives the exact condition).
- A partial dry run saves its cursor, and a later apply run of the job never corrects what lies before it
  (`ReconciliationModes.DryRunPrefixIsLost`).
- Operation keys are unique within a job, not across jobs: `a` and `a:b` can collide
  (`Reconciliation.CrossJobCollision`).
- A JSON number that overflows prints as null, so the fingerprint cannot tell 1e999 from null
  (`CanonicalJson.OverflowCollision`), and the text is insensitive to property order only if the comparator never
  ties two distinct keys (`CanonicalJson.OrderInsensitiveIffTieless`).

## Model

| member | source | states |
|---|---|---|
| JsonText.StringRoundTrip | src/services/eventIngestionService.ts:255 | reading a string literal as section 7 of RFC 8259 prescribes undoes `JSON.stringify` for every string, control characters, quotes and lone surrogates included, and stops at the closing quote |
| CanonicalJson.RoundTrip | src/services/eventIngestionService.ts:248-256 | a recursive-descent decoder applied to the canonical text of any JSON value, whatever follows it, returns the value read with objects as maps and leaves exactly what followed |
| CanonicalJson.EntriesMeaning | src/services/eventIngestionService.ts:252-254 | dropping undefined properties and sorting by key keep the keys distinct and the key-to-value map unchanged |
| CanonicalJson.SameTextSameMeaning | src/services/eventIngestionService.ts:248-256 | under any comparator, two values printed alike mean the same |
| CanonicalJson.CanonicalIdentity | src/services/eventIngestionService.ts:239-256 | under a comparator without ties, two values print alike if and only if they are equal with objects as maps |
| CanonicalJson.FiniteIdentity | src/services/eventIngestionService.ts:239-256 | without overflowed numbers the printed text loses nothing at all, in both directions |
| CanonicalJson.OverflowCollision | src/services/eventIngestionService.ts:249 | both infinities print as null although they differ from it and from each other |
| CanonicalJson.OrderInsensitiveIffTieless | src/services/eventIngestionService.ts:254 | property order never matters if and only if the comparator ties no two distinct keys |
| EventFingerprint.FingerprintIdentity | src/services/eventIngestionService.ts:239-246 | two events share a fingerprint if and only if all eight fields agree, `data` compared as a map |
| EventBodies.BodyReads | src/services/eventIngestionService.ts:205-237 | a body is an event if and only if it is an object with four non-empty strings, and each of the eight fields is then what the body holds under that field's own name, if it is of the field's type |
| EventBodies.BodyIdentity | src/services/eventIngestionService.ts:205-256 | two events' bodies have one fingerprint if and only if they hold the same under each of the eight names |
| EventBodies.EquivalentBodiesReplay | src/services/eventIngestionService.ts:205-246 | bodies that differ only in property order, at any depth, are accepted or refused together and get one fingerprint |
| CanonicalSpelling.Literals | src/services/eventIngestionService.ts:249 | how null, the booleans and a number are spelled |
| CanonicalSpelling.ShortEscapes | src/services/eventIngestionService.ts:249 | quotes, backslashes and line feeds get their short escapes |
| CanonicalSpelling.LongEscapes | src/services/eventIngestionService.ts:249 | other control characters are escaped in lower-case hexadecimal |
| CanonicalSpelling.Brackets | src/services/eventIngestionService.ts:250 | how an array is spelled |
| CanonicalSpelling.Braces | src/services/eventIngestionService.ts:252-255 | how an object is spelled, an undefined property leaving no trace |
| ProcessedEvents.InMemoryProcessedIndexerEventStore.Claim | src/repositories/processedIndexerEventRepository.ts:71-82 | the four answers and the new ledger: claimed only for an unknown or failed event under the same payload |
| ProcessedEvents.InMemoryProcessedIndexerEventStore.Complete | src/repositories/processedIndexerEventRepository.ts:84-87 | an existing event becomes completed, nothing else changes |
| ProcessedEvents.InMemoryProcessedIndexerEventStore.Fail | src/repositories/processedIndexerEventRepository.ts:89-92 | an existing event becomes failed, nothing else changes |
| Ingestion.EventIngestionService.Ingest | src/services/eventIngestionService.ts:98-185 | one call on the in-memory stores replies and writes what the step system prescribes, and touches only the store of its kind of event |
| Ingestion.StepInv | src/services/eventIngestionService.ts:140-185 | every storage step, throwing before or after its effect or not at all, keeps at most one call per event holding or having won the claim, with the ledger row to match |
| Ingestion.ClaimStep | src/services/eventIngestionService.ts:140-166 | a claim takes an event that is not stored or failed under the same payload, is a conflict under another payload, and otherwise a duplicate if the event is completed and in progress if not; a claim that throws is answered unavailable and takes effect only if it throws afterwards |
| Ingestion.HolderStep | src/services/eventIngestionService.ts:168-185 | completing is accepted as new, or, if it throws, the event is failed and the answer is unavailable; the payload on record stays |
| Ingestion.FirstPayloadBinds | src/repositories/processedIndexerEventRepository.ts:71-92 | under every interleaving, fault and death the first payload stored for an event id is the one it keeps |
| Ingestion.MeteringReplyExact | src/services/eventIngestionService.ts:118-137 | where a stream has n events, a new event is accepted at n + 1, late below, a gap above; a known one is a duplicate |
| Ingestion.AtMostOneAcceptance | src/services/eventIngestionService.ts:140-185 | over every interleaving, fault and death, no two calls for one event id return accepted with duplicate false |
| Ingestion.AcceptanceIsFinal | src/services/eventIngestionService.ts:168-185 | the winning call and its completed ledger row survive every later step |
| Ingestion.AfterAcceptance | src/services/eventIngestionService.ts:140-166 | after an acceptance, at any later time, the same payload is a duplicate and any other a conflict |
| Ingestion.OrphanStaysBlocked | src/repositories/processedIndexerEventRepository.ts:79 | an event left in processing with nobody working on it stays so for ever |
| Ingestion.OrphanedWhenAbandoned | src/services/eventIngestionService.ts:140-185 | an event is newly left in that state if and only if the holder of its processing row dies, a successful claim throws after taking effect, or a `fail` throws before it while the row is still processing |
| Ingestion.DeathOrphans | src/services/eventIngestionService.ts:168-170 | a process that dies between claim and complete leaves its event in that state |
| Ingestion.DuplicateMeansAccepted | src/services/eventIngestionService.ts:168-185 | if no `complete` throws after taking effect, a duplicate answer implies some call was accepted |
| Ingestion.TrustedIffHonest | src/services/eventIngestionService.ts:168-185 | at every point of a run every completed event has been accepted by some call, if and only if no `complete` throws after taking effect |
| Ingestion.PhantomDuplicate | src/services/eventIngestionService.ts:168-185 | otherwise one call can be told duplicate while the other fails the event and nobody was ever accepted |
| SqlEventClaims.NeverAccepted | src/repositories/processedIndexerEventRepository.ts:28-61 | under every interleaving of the separate insert, read, complete and fail statements, with faults and deaths, a delivery is never accepted as new unless its row starts out failed under its payload, so over an empty table none is |
| SqlEventClaims.DoubleAcceptance | src/repositories/processedIndexerEventRepository.ts:28-54 | from such a failed row two concurrent deliveries are both accepted |
| SqlEventClaims.AcceptedOnceIffNever | src/repositories/processedIndexerEventRepository.ts:28-61 | a delivery can be accepted if and only if its row is failed under its payload, and at most one acceptance holds in every run if and only if it is not |
| Metering.InMemoryMeteringCheckpointStore.Apply | src/repositories/meteringCheckpointRepository.ts:64-83 | the scan with a running maximum decides and inserts by the stream's true maximum; refusals change nothing |
| Metering.CheckpointAfter | src/repositories/meteringCheckpointRepository.ts:68-82 | an accepted event raises its own stream's maximum by one and no other stream's |
| Metering.RunContiguous | src/repositories/meteringCheckpointRepository.ts:61-83 | in every reachable state each stream's accepted sequences are exactly 1..checkpoint, one event each |
| Metering.CheckpointCountsEvents | src/repositories/meteringCheckpointRepository.ts:68-71 | the scanned maximum equals the number of the stream's events |
| Metering.BindingsKept | src/repositories/meteringCheckpointRepository.ts:62-83 | an event id's stream and sequence never change |
| Metering.AcceptedOnce | src/repositories/meteringCheckpointRepository.ts:65-66 | after an acceptance every later delivery of that id is a duplicate with the original sequence |
| Metering.AnswerExact | src/repositories/meteringCheckpointRepository.ts:64-83 | where a stream has n events, a new event is accepted and stored if and only if its sequence is n + 1; it is late below, a gap up to n + 101 and too large a gap above; a known one is a duplicate of what was stored |
| Metering.ScheduleCharacterisation | src/repositories/meteringCheckpointRepository.ts:64-83 | after any delivery list, with repeats, any order and other streams mixed in, the checkpoint is the largest k such that 1..k occurs in it as an ordered subsequence |
| MeteringTransactions.Linearizable | src/repositories/meteringCheckpointRepository.ts:24-52 | under every interleaving and every abort, the committed rows are those of the atomic store run over a log, each committed call got the atomic answer at its log position, and rolled-back calls wrote nothing |
| MeteringTransactions.RealTimeOrder | src/repositories/meteringCheckpointRepository.ts:24-52 | a call that committed before another began is logged before it |
| MeteringTransactions.StepInv | src/repositories/meteringCheckpointRepository.ts:26-50 | each statement of the transaction keeps the lock exclusive, the log faithful and every transaction's reading valid |
| MeteringTransactions.AbortsOnlyOnEventId | src/repositories/meteringCheckpointRepository.ts:49 | an insert aborts if and only if its event id was committed elsewhere; the stream and sequence index can never clash, and the abort changes no row |
| MeteringTransactions.LoserNeverInserts | src/repositories/meteringCheckpointRepository.ts:24-52 | once an event id raced on several streams is committed, every other call for it, wherever it stands, never writes a row and never commits an acceptance, only a duplicate or refusal, and the winner's binding stays |
| MeteringTransactions.SomeoneCanProceed | src/repositories/meteringCheckpointRepository.ts:26-50 | while any call is unfinished some transaction can move: locks and key waits never deadlock |
| MeteringTransactions.CallsTerminate | src/repositories/meteringCheckpointRepository.ts:24-52 | no schedule, with whatever aborts, moves the transactions more than five times a call, and one that always moves some transaction finishes every call within that many actions |
| MeteringTransactions.CanFinish | src/repositories/meteringCheckpointRepository.ts:24-52 | such a schedule exists from every point of every run, without an abort |
| SettlementOutbox.QueueOrder | src/repositories/settlementOutboxRepository.ts:206-208 | the queue is ordered by creation time and, on ties, by insertion |
| SettlementOutbox.LeaseTokenInjective | src/repositories/settlementOutboxRepository.ts:216 | tokens of different rows or numbers are different strings, whatever the ids look like |
| SettlementOutbox.EnqueueValid | src/repositories/settlementOutboxRepository.ts:174-198 | enqueuing keeps rows and keys mutually inverse and ids unused so far |
| SettlementOutbox.ClaimValid | src/repositories/settlementOutboxRepository.ts:200-225 | so does claiming |
| OutboxStore.InMemorySettlementOutboxStore.Enqueue | src/repositories/settlementOutboxRepository.ts:174-198 | a known key returns its row and changes nothing, a new one adds one pending row |
| OutboxStore.InMemorySettlementOutboxStore.ClaimDue | src/repositories/settlementOutboxRepository.ts:200-225 | the loop with its early break returns and stores exactly the claims `OutboxClaims` describes and keeps the store valid |
| OutboxStore.InMemorySettlementOutboxStore.MarkSucceeded | src/repositories/settlementOutboxRepository.ts:227-241 | accepts exactly a processing row under this token, leaves it succeeded at that time without its lease, and writes that row only |
| OutboxStore.InMemorySettlementOutboxStore.MarkFailed | src/repositories/settlementOutboxRepository.ts:243-260 | the same guard; the row becomes pending or dead with its error cut to 4000 characters |
| OutboxLeases.TokensFenced | src/repositories/settlementOutboxRepository.ts:200-260 | over all runs of all workers every issued token is distinct and is accepted by at most one acknowledgement |
| OutboxLeases.RetiredForEver | src/repositories/settlementOutboxRepository.ts:227-253 | a token no row carries any more is refused in every later state |
| OutboxLeases.ReclaimRetires | src/repositories/settlementOutboxRepository.ts:210-222 | reclaiming a row retires the token it carried |
| OutboxLeases.TerminalForEver | src/repositories/settlementOutboxRepository.ts:210-259 | succeeded and dead rows are never claimed or changed again |
| OutboxLeases.GuardsAgree | src/repositories/settlementOutboxRepository.ts:111-159 | on every reachable store a row is processing exactly when it has a token, so the SQL guard on id and token accepts exactly what the in-memory guard accepts |
| OutboxLeases.AcceptedWhileCurrent | src/repositories/settlementOutboxRepository.ts:232-234 | an acknowledgement of an issued claim is accepted if and only if the row is still as it was claimed; the deadline plays no part |
| OutboxLeases.ExpiredLeaseAccepted | docs/settlement-outbox.md:20 | a concrete run in which success is accepted after the lease has run out |
| OutboxLeases.OneRowPerKey | src/repositories/settlementOutboxRepository.ts:171-198 | after any run there is exactly one row per event key ever enqueued, and keys and rows are inverse |
| OutboxLeases.RepeatedEnqueue | src/repositories/settlementOutboxRepository.ts:175-176 | enqueuing a known key at any later time changes nothing and finds the same row |
| OutboxDelivery.BackoffDoubles | src/services/settlementOutboxService.ts:118-124 | the delay starts at five seconds, doubles with every attempt and is capped at fifteen minutes |
| OutboxDelivery.PendingRowsHaveAttemptsLeft | src/services/settlementOutboxService.ts:94-107 | for any workers, crashed or slow, a pending row has attempts below max(1, maxAttempts) |
| OutboxDelivery.SettlementOutboxService.Enqueue | src/services/settlementOutboxService.ts:37-53 | blank keys, types and aggregates are refused without effect, everything else is enqueued |
| OutboxDelivery.SettlementOutboxService.SettleClaim | src/services/settlementOutboxService.ts:69-113 | one claim is acknowledged and counted as its outcome demands |
| OutboxDelivery.SettlementOutboxService.ProcessDue | src/services/settlementOutboxService.ts:55-115 | the loop performs one whole pass: the claims, their settlements in order and the summary |
| OutboxClaims.NotYetClaimed | src/repositories/settlementOutboxRepository.ts:210-215 | a pending row not yet available, a processing row whose lease has not run out and a finished row come out of every claim unchanged |
| OutboxClaims.ClaimedExactly | src/repositories/settlementOutboxRepository.ts:205-224 | a claim takes a row if and only if the row is pending and available, or processing with its lease run out, and fewer such rows are ahead of it by creation and insertion than the limit clamped to 1..500; any other row stays unchanged |
| OutboxClaims.ReadyIsClaimed | src/repositories/settlementOutboxRepository.ts:209-215 | with room for every row, an available pending row and a row whose lease has run out are always taken |
| OutboxClaims.ClaimHandsOut | src/repositories/settlementOutboxRepository.ts:216-222 | a claimed row is processing under a token, leased until now plus max(1000, leaseMs), one attempt on, and otherwise as it was stored |
| OutboxClaims.LeaseHolds | src/repositories/settlementOutboxRepository.ts:210-222 | over all runs: until an answer to a claim is accepted, no operation of any worker at any time up to the end of its lease changes the claimed row |
| OutboxClaims.PollLeases | src/services/settlementOutboxService.ts:63-67 | delivery workers claim for a minute |
| OutboxOutcomes.SuccessExact | src/repositories/settlementOutboxRepository.ts:227-241 | an accepted success leaves the row succeeded at that time with no lease and all it was enqueued with; a refused one changes nothing |
| OutboxOutcomes.FailureExact | src/repositories/settlementOutboxRepository.ts:243-260 | an accepted failure leaves the row dead or pending as told, available at the retry time, with the first 4000 characters of the error; a refused one changes nothing |
| OutboxOutcomes.AnswerOutcome | src/services/settlementOutboxService.ts:69-113 | an answer to any claim ever issued, at any later time, changes nothing unless the claim is still the row's current one, and then leaves the row succeeded if the handler returned, dead if there is none or no attempt is left, and otherwise pending until the backoff is over |
| OutboxOutcomes.PassOutcome | src/services/settlementOutboxService.ts:55-115 | in a pass without crashes every claimed row ends in that way |
| OutboxOutcomes.AnswerCounted | src/services/settlementOutboxService.ts:77-111 | a refused answer counts as skipped, an accepted one as succeeded, dead or retried by what became of the row |
| OutboxOutcomes.SummaryCounts | src/services/settlementOutboxService.ts:68-114 | the summary of such a pass counts its claims by the status their rows are stored with |
| OutboxHistory.SubmitStores | src/services/settlementOutboxService.ts:37-53 | a submission without blank fields under a new key adds one pending row with what was submitted, due at once, eight attempts by default; any other changes nothing |
| OutboxHistory.FirstSubmissionKept | src/repositories/settlementOutboxRepository.ts:174-260 | over all runs of all workers the keys are exactly those submitted without a blank field, and every row still carries the type, aggregate, payload, allowance and creation time of the first submission under its key |
| OutboxPass.PassEffect | src/services/settlementOutboxService.ts:63-114 | without a crash each claimed row is settled once, no acknowledgement is refused and no other row changes |
| OutboxPass.AttemptUsed | src/services/settlementOutboxService.ts:83-107 | one attempt of a row, fresh or reclaimed from a crashed worker, settles it for good or leaves it pending with one attempt fewer |
| OutboxPass.PassUsesAttempts | src/services/settlementOutboxService.ts:63-114 | a pass over any deliverable store, rows of crashed workers included, uses up at least one remaining attempt per claim and leaves the store deliverable |
| OutboxDrain.EventBalance | src/services/settlementOutboxService.ts:37-115 | a crash-free pass with a row due uses up an attempt; a poll whose worker crashes and an answer however late add none; a submission adds its row's allowance |
| OutboxDrain.OutboxDrains | src/services/settlementOutboxService.ts:55-115 | after any history of workers, and among any further polls, crashes, late answers and submissions, there are never more productive crash-free passes than attempts left and submitted, and after that many every row is terminal |
| OutboxDrain.AnswersDrain | src/services/settlementOutboxService.ts:55-115 | however the claims and answers of any number of workers interleave, no more acknowledgements are ever accepted than attempts were submitted, and once that many have been, every row is terminal |
| OutboxDrain.SubmitGains | src/services/settlementOutboxService.ts:37-53 | a submission adds exactly the new row's allowance to the attempts left, or nothing if it is refused or its key is known |
| OutboxDrain.StuckIsDrained | src/repositories/settlementOutboxRepository.ts:210-215 | after any history of workers, no time makes any row due if and only if every row is terminal |
| OutboxPoison.InMemoryPoisonDies | src/repositories/settlementOutboxRepository.ts:216-222 | with the in-memory claim a row whose handler always throws is dead exactly from the failure at which its attempts reach the maximum |
| OutboxPoison.SqlPoisonNeverDies | src/repositories/settlementOutboxRepository.ts:97-102 | with the SQL claim its attempts never change, and it dies only if none were left to begin with |
| Decimal.FormatThenParse | src/services/reconciliationService.ts:80-99 | parsing undoes formatting on every non-negative number of units |
| Decimal.ParseThenFormat | src/services/reconciliationService.ts:80-99 | formatting a parsed string gives the string back if and only if it has no superfluous zeros |
| Decimal.FormatIdempotent | src/services/reconciliationService.ts:80-99 | the printed form keeps the value and is the only canonical text of it |
| Decimal.SignedRoundTrip | src/services/reconciliationService.ts:90-99 | every signed amount reads back as itself |
| Decimal.ParsesIffMatches | src/services/reconciliationService.ts:80-87 | an amount parses if and only if it matches the pattern: digits, optionally a dot and one to nine digits |
| Decimal.CompareRejects | src/services/reconciliationService.ts:80-107 | comparison fails if and only if some amount does not match the pattern, and names the first that does not |
| Decimal.CompareExact | src/services/reconciliationService.ts:101-109 | it is null if and only if the values are equal and otherwise prints the signed amount that takes expected to actual |
| Decimal.ParsedWhole | src/services/reconciliationService.ts:80-88 | digits alone are that many units of a billion billionths |
| Decimal.ParsedFraction | src/services/reconciliationService.ts:80-88 | digits with a dot and one to nine digits are worth exactly the number they denote, in billionths |
| Reconciliation.NormalizeOptions | src/services/reconciliationService.ts:115-149 | options are accepted if and only if the job is not blank, the batch size is from 1 to 1000 and apply mode carries the expected phrase; all of them carry over with their defaults |
| Reconciliation.KeyInjective | src/services/reconciliationService.ts:111-113 | within a job different records have different operation keys |
| Reconciliation.CrossJobCollision | src/services/reconciliationService.ts:111-113 | two jobs share some operation key if and only if one job id is the other followed by a colon and anything |
| ReconciliationSafety.ApplyingOnce | src/services/reconciliationService.ts:299-301 | an idempotent write keeps the list of corrections free of repeated keys |
| ReconciliationSafety.RunSafe | src/services/reconciliationService.ts:158-249 | at every crash point of an apply run the saved checkpoint is truthful, and a plan that completes has applied every mismatch |
| ReconciliationSafety.CrashSafe | src/services/reconciliationService.ts:158-238 | for any number of apply runs, each stopped anywhere, every id in the saved checkpoint and every mismatch before its cursor has been applied, each once and nothing else |
| ReconciliationWindows.UnboundedCompletes | src/services/reconciliationService.ts:177-238 | an unbounded run completes if and only if every record it has yet to scan is well formed |
| ReconciliationWindows.WindowsEqualOneRun | src/services/reconciliationService.ts:177-248 | any cutting into windows of any batch sizes gives the same totals, the same corrections, the same mismatches and the same checkpoint as one unbounded run |
| ReconciliationWindows.WindowsComplete | src/services/reconciliationService.ts:177-248 | over well-formed records as many windows as there are records left, each allowed a batch, complete the job |
| ReconciliationModes.DryRunNeverWrites | src/services/reconciliationService.ts:205 | a dry run stopped anywhere never touches the source |
| ReconciliationModes.DryRunPrefixIsLost | src/services/reconciliationService.ts:205-224 | applying after a partial dry run corrects everything if and only if the dry run had passed no mismatch |
| ReconciliationModes.DryThenApplyWitness | src/services/reconciliationService.ts:205-224 | one dry window over two mismatches and an apply run that corrects only the second |
| ReconciliationService.InMemoryReconciliationSource.ReadBatch | src/services/reconciliationService.ts:279-290 | a page starts at the cursor, is cut at the batch size or the end, and names a next cursor exactly when records are left |
| ReconciliationService.InMemoryReconciliationSource.ApplyMismatch | src/services/reconciliationService.ts:292-302 | a known operation key changes nothing, a new one is appended once |
| ReconciliationService.InMemoryCheckpointStore.Store | src/services/reconciliationService.ts:262-267 | saving replaces the checkpoint of its job only |
| Reconciliation.LoadsLastSaved | src/services/reconciliationService.ts:252-268 | after any writes and saves, loading a job returns the last checkpoint saved for it, or what was there if none was, whatever other jobs saved |
| ReconciliationService.ReconciliationService.Run | src/services/reconciliationService.ts:158-249 | the runner's nested loops, dying at any effect or not at all, leave exactly the planned durable state and report the planned outcome; what the plan does to the records is stated in `ReconciliationRecords` |
| ReconciliationService.ReconciliationService.ProcessBatch | src/services/reconciliationService.ts:187-218 | one batch performs its part of the plan in order, stopping at a malformed record |
| ReconciliationRecords.ExamineExact | src/services/reconciliationService.ts:187-197 | a record is refused if and only if its id is blank or an amount does not match the pattern, with the message for the first such fault, and is a mismatch if and only if its two amounts differ, by the signed difference from expected to actual |
| ReconciliationRecords.CorrectionsAreRight | src/services/reconciliationService.ts:158-249 | however a job is run, in whatever modes and wherever each run is stopped, every correction it adds is of a record whose amounts differ, states the amount from expected to actual and carries that record's key |
| ReconciliationRecords.CompletionCorrectsRecords | src/services/reconciliationService.ts:158-238 | once an apply run reports complete, whatever crashes came before, the applied keys are those from before the job and those of the records whose amounts differ, no other record's, each once |
| ReconciliationRecords.CompletionAddsRecords | src/services/reconciliationService.ts:158-238 | from any checkpoint a completed apply run adds exactly the keys of the unprocessed records from its cursor on whose amounts differ |
| ReconciliationRecords.RunReport | src/services/reconciliationService.ts:158-248 | an uninterrupted run counts every record it reads, counts and lists in order those whose amounts differ, applies one correction for each id not yet processed, skips the others, and saves a checkpoint of exactly these figures |
| ReconciliationRecords.CompletesOnReadable | src/services/reconciliationService.ts:177-238 | an unbounded run completes if and only if every record it has yet to read has an id and two amounts of the pattern |
| ReconciliationRecords.FailsOnUnreadable | src/services/reconciliationService.ts:187-195 | a run that fails fails on the first record without these, and its message says what is missing |
| Csv.FieldRoundTrip | src/api/v1/streams.ts:124-130 | an escaped field reads back as itself whatever it contains, commas, quotes and line breaks included |
| Csv.QuotedExactlyWhenNeeded | src/api/v1/streams.ts:124-130 | a value is left unquoted if and only if it reads back as itself without quotes |
| Csv.DocumentRoundTrip | src/api/v1/streams.ts:121-147 | a document of records reads back as exactly those records |
| StreamCsv.ExportCsv | src/api/v1/streams.ts:152-190 | the export loop writes the header and one line per exported row, in order, and ends exactly when a page has no cursor |
| StreamCsv.HeaderIsCsv | src/api/v1/streams.ts:121-122 | the header line is the CSV line of the eleven column names |
| StreamCsv.DocumentReadsBack | src/api/v1/streams.ts:121-147 | reading the document gives the header record and one record of eleven original fields per row |
| StreamCsv.DocumentCells | src/api/v1/streams.ts:121-147 | read back, the document has the eleven column names first and then, for each exported stream, its value in each column |
| Streams.StreamRepository.Create | src/repositories/streamRepository.ts:207-213 | a new id adds its row, a known one fails and changes nothing |
| Streams.StreamRepository.UpdateById | src/repositories/streamRepository.ts:112-135 | only a live row, at the expected version if one is given, is rewritten, in the supplied fields only |
| Streams.StreamRepository.SoftDeleteById | src/repositories/streamRepository.ts:137-145 | affects exactly a live row |
| Streams.StreamRepository.RestoreById | src/repositories/streamRepository.ts:148-156 | affects exactly a deleted row and keeps its status |
| Streams.ApplyAllCarries | src/repositories/streamRepository.ts:112-156 | no sequence of writes removes a row, changes an id or moves a creation time |
| Streams.StaleUpdateRefused | src/repositories/streamRepository.ts:122-126 | of two successive updates against one version the second is refused if and only if the first moved the version |
| Streams.UpdateWrites | src/repositories/streamRepository.ts:112-135 | an update of a live row at the expected version writes the supplied fields and a new version into that row and nothing else; any other changes nothing |
| Streams.DeletionWrites | src/repositories/streamRepository.ts:137-156 | deleting only sets the mark of a live row, restoring only clears it and gives a new version |
| Streams.OtherWrites | src/repositories/streamRepository.ts:112-213 | a new id is inserted at the end and a write to an unknown id changes nothing |
| StreamExport.QueryResult | src/repositories/streamRepository.ts:158-196 | a query returns exactly the rows that are live, have the payer, recipient and status asked for and follow the cursor, strictly increasing in (createdAt, id) |
| StreamExport.PageIsPrefix | src/repositories/streamRepository.ts:189-205 | a page is the first batch of the query, and it has a cursor, the key of its last row, if and only if rows are left and some were returned |
| StreamExport.RowOrderIrrelevant | src/repositories/streamRepository.ts:189-194 | a page does not depend on where the database keeps its rows |
| StreamExport.OutputIncreases | src/repositories/streamRepository.ts:175-205 | whatever tables the queries see, the output strictly increases in (createdAt, id) |
| StreamExport.OutputMatches | src/repositories/streamRepository.ts:158-205 | every exported row was live and met the filters in a table some query saw |
| StreamExport.NoStreamTwice | src/repositories/streamRepository.ts:156-205 | with rows created, updated, deleted and restored between pages, no stream is exported twice |
| StreamExport.EveryMatchOnce | src/repositories/streamRepository.ts:156-205 | a stream that is live and meets the filters at every page query is exported exactly once by the end |
| StreamExport.FixedTableExport | src/api/v1/streams.ts:168-187 | over a fixed table the loop ends after the stated number of queries, and its output is exactly the live rows that meet the filters, sorted and each once, if and only if the batch size is at least one or nothing matches |
| StreamExport.SettledTableEnds | src/api/v1/streams.ts:168-187 | however the table changes at first, once it stops changing the loop ends within the queries a fixed table needs |
| StreamExport.PagesIsCeiling | src/api/v1/streams.ts:170-187 | the number of queries for a fixed table is max(1, ceil(rows / batch size)) |

## Left out

- Express routing, middleware, request schemas, authentication, CORS, metrics, tracing and health checks: plumbing around the modelled logic.
- HMAC, SHA-256 and timing-safe comparison: signatures are taken as checked and the hash as injective, so the canonical text stands for the fingerprint.
- PostgreSQL, Redis and the query builder: tables are maps or sequences, the advisory lock a mutex per lock value, a unique index an insert that waits for a rival and aborts on a committed one.
- Webhook delivery and job leases: a stale snapshot written back unguarded, and a release that never matches its own owner value, leave only easy claims.
- Accrual estimates, Soroban and Horizon clients, the stream cache and offset pagination: floating point, network calls or one-branch facts.
- Timestamps: cursor and row times are exact integers; database microseconds cut to JavaScript milliseconds are not modelled, nor are invalid dates.
- `localeCompare` is any total preorder on keys and number texts are abstract tokens; what a locale ties is a hypothesis of the theorems.
- `JSON.parse` itself: ingestion starts from a parsed value with unique keys.
- OutboxClaims.ClaimedExactly: states the in-memory claim; the SQL claim issues one token for a whole batch and is modelled only through its guard and its missing attempt count.
- OutboxStore.InMemorySettlementOutboxStore.Enqueue: callers that supply their own id, status or token are not modelled, and neither are callers that mutate the live row a repeated enqueue returns.
- OutboxDrain.OutboxDrains: the passes that are counted run without another worker's operation between their own steps; passes that overlap are covered by `OutboxDrain.AnswersDrain`, which counts accepted acknowledgements instead. Handlers that re-enter the outbox are not modelled.
- OutboxDelivery.SettlementOutboxService.SettleClaim: the store does not throw, as the in-memory one never does; what a throwing acknowledgement leaves behind, taken effect or not and answered a second time, is some history of late answers, which the lease and drain theorems cover.
- OutboxDelivery.SettlementOutboxService.ProcessDue: the store does not throw in the middle of a pass, for the same reason; a pass that stops part of the way is a poll and some answers of such a history.
- Ingestion.AtMostOneAcceptance: a storage call takes effect before it answers or throws, never later; the metering branch's own storage faults and `reset` during a call are not interleaved.
- Ingestion.EventIngestionService.Ingest: starts from an event whose signature, JSON and payload have been checked and runs on the in-memory stores, which never throw; throwing storage is in the step system.
- SqlEventClaims.NeverAccepted: a unique violation is not a fault of its own, since the only key is covered by ON CONFLICT DO NOTHING.
- MeteringTransactions.Linearizable: `reset` does not run concurrently, and the 32-bit range of the sequence column is not modelled.
- Reconciliation sources other than the in-memory one, a source that returns more records than asked for, and the `updatedAt` of checkpoints; `processedIds` is a set, although the source stores it sorted.
- ReconciliationService.InMemoryReconciliationSource.ApplyMismatch: the simulated interruption before a write is one of the runner's crash points instead of a field of the source.
- ReconciliationSafety.CrashSafe: concerns jobs run in apply mode only, because a partial dry run saves its cursor; what then happens is stated separately.
- ReconciliationWindows.WindowsEqualOneRun: uninterrupted windows only, since a crash inside a batch makes the next run count its records again.
- Command-line parsing for reconciliation and the file-backed checkpoint store.
- StreamExport.EveryMatchOnce: a batch size of zero, which no caller passes, exports nothing and is covered by the fixed-table theorem; an unknown status filter, which the database refuses, and an error in the middle of the response are not modelled.
- Streams.StreamRepository.Create: rows carry their id and times instead of taking the database defaults, and columns the export does not use are left out.
