# TicketFlow: a verified model of booking, cancelling and updating under concurrency

TicketFlow sells tickets of events. Four kinds of request race on the same event row, each
under its own discipline: a booking (Redis lock, `SELECT ... FOR UPDATE`, version-checked
relative write), a cancellation (row locks, relative unversioned write), an event update
(unlocked read, later one absolute write under the *client's* version) and a soft delete.
This project models those requests statement by statement, lets any number of them
interleave, and proves what survives: which tables can be reached, what happens to the
tickets, and exactly where the guarantees end.

- `Schema.dfy`: rows, CHECK constraints and column widths, and what each SQL statement does to one row.
- `History.dfy`: the atomic specification. Tables change only by whole actions (`Book`, `Cancel`,
  `Update`, ...); a valid history is a sequence of actions each enabled when it happened.
- `Ledger.dfy`: tickets, versions and cancellations over a whole history.
- `Protocol.dfy`: the interleaved machine. A state holds the committed tables, one program counter
  with its local variables and uncommitted writes per request, row locks, in-doubt entries of the
  partial unique index, and the Redis lock keys. A run is *any* sequence of labels; a label that is
  blocked does nothing; any request may abort at any point; `RedisChange` replaces the lock keys by
  arbitrary ones (expiry, loss, foreign tokens). Read Committed follows section 13.2.1 of the
  PostgreSQL 16 manual. `history` and `readAt` are auxiliary: no guard looks at them. Mode
  `Locking` is the code as written; mode `VersionOnly` replaces the locking read by a plain SELECT.
- `Refinement.dfy`: the inductive invariant; every run of either mode refines the atomic specification.
- `Statements.dfy`: every statement of every request spelled out on the rows: when it waits, which
  error it answers, what it leaves. `Locks.dfy`: who holds which lock and key.
- `Steps.dfy`: what one step of one request can change. `Stories.dfy`: what each request did over a
  whole run, and batches amid other requests.
- `Guarantees.dfy`: the consequences for every reachable state.
- `Alone.dfy`: the converse for undisturbed requests of every kind. `Anomalies.dfy`: concrete runs showing that
  the conditions of the guarantees cannot be dropped.
- `Resale.dfy`, `Overselling.dfy`: exactly which updates can oversell, for histories and for the machine.
- `LockTiming.dfy`, `SlidingWindow.dfy`: the two Redis scripts as timed machines. `Remembering.dfy`: every
  answer of the rate limiter in closed form.
- `AuditDiff.dfy`: `ComputeDiff`, replay of diffs, the diff of a cancellation.
- `Repositories.dfy`, `Services.dfy`: the sequential code as classes and methods, each tied to the
  same atomic actions.

Run `dafny verify dfyconfig.toml` here to check everything.

## What the code promises and what holds

- Overselling. The version column is meant to catch concurrent modification. An update compares it
  with the version the client sent, not with the version of the row it read, and writes back the
  `remaining_tickets` it read. If the client's version is at most the version read (as when it comes
  from an earlier GET), remaining plus held tickets never exceeds the total at creation, with equality
  exactly when no cancellation was committed between the read and the write of an update
  (`NoOversellingInHonestRuns`). What any other version can do is exact: from every reachable state,
  with any requests in flight and however long ago the update read, it can put at least `m` sold
  tickets back on sale, all other updates of the event being honest from now on, if and only if
  `CanResell` holds of the row as it is now, the row it read, and its fields (`PutsBackIff`). Right
  after its read this says (`RightAfterRead`): its version is newer than the row's, by two at least
  if the event is not published (another client can publish it meanwhile), `m` tickets are on sale,
  and the new row passes the CHECKs. While all committed updates are honest a waiting update can
  oversell if and only if it can put back one ticket more than were lost so far (`OversellsIff`), and
  only with a version newer than the row it read (`OnlyNewerVersions`). `FutureVersionOversells` is
  the smallest instance.
- Results. A request that reports failure wrote nothing in its whole life; one that reports a booking
  or a cancellation wrote exactly that, and it is there; every write belongs to exactly one successful
  request (`FailedDidNothing`, `BookedIsThere`, `CancelledIsThere`, `EveryWriteHasItsRequest`). A batch
  commits the entries before the failing one, in order, whatever else runs (`BatchCommitsPrefix`).
- Errors. Every statement answers exactly the error that the rows force on it (`Answered` and the laws
  after it); `Database` comes only from an abort, a poisoned commit, or a row or number that a column or
  a CHECK refuses. A refused booking keeps its Redis key until its release, so while Redis loses no key
  and no booking dies before its release there is a key exactly while a booking of the event is on its
  way, and never two of them (`OneBookingAtATime`).
- Cancelling. It can fail on the CHECK `remaining_tickets <= total_tickets` after an update lowered
  the total (`ShrinkingBlocksCancel`). All active bookings of an event can be cancelled, in any
  order, if and only if remaining plus held tickets fits in the total (`AllCancelIffFits`).
- "Both locks are needed" (MEMORY.md:69). For the tables the row lock alone suffices, whatever Redis
  does, and so does the version check alone. "Only one goroutine proceeds" (README.md:249) holds
  when every transaction ends within the 5 s of its key (`TransactionsDisjoint`). Otherwise, in any
  run, a second transaction can be open beside an open one by a deadline if and only if another flow
  that once had the lock has not ended yet, or the key is free by then (`OverlapIff`). For a flow
  whose own time is not up that means: another flow is late and has not ended, or its own time is up
  by the deadline (`OverlapIffOverdue`).
- Rate limit. With clocks off by at most `skew` the limit holds for time windows of a given length if
  and only if that length is at most `window - 2 * skew` (`LimitIff`); on one clock it is exact. For any caller
  clocks an answer depends on exactly the admitted requests that no call has found too old and no pause
  of the window has swept away (`AdmitsExactly`, `ForgottenAfterWindow`).
- Validation. What `validateCreateEvent` accepts can still violate `events_dates_valid`: exactly when
  both dates fall into the same microsecond, which is what TIMESTAMPTZ keeps. Its "3 characters" are
  bytes (`ValidationAgainstChecks`, `ValidationGaps`).
- Batches of events. The error of closing the batch is dropped (event_repo.go:209), so a failing
  commit is reported as success with nothing stored (`EventService.BatchCreate`).
- Drafts. An event created without a status is a draft; only an update can publish it, and before that
  nobody books it (`BookedOnlyOncePublished`).
- Audit diffs replay up to rendering, except where a key is changed to or from an explicit nil
  (`ForwardReplays`, `BackwardReplays`). As long as no key changes the kind of its value, as in bookings
  and events, a diff misses no change and replays exactly (`ComputeDiff`, `ForwardExact`); across kinds
  only a text can be taken for something else (`OtherKindsApart`).

## Model

| member | source | states |
|---|---|---|
| Refinement.RunOk | internal/service/booking_service.go:44-154 | every reachable state of every run, in both modes, satisfies the invariant: valid history, tables equal to its replay, every request's locks and pending writes consistent |
| Guarantees.Refines | internal/service/booking_service.go:44-154 | the committed tables are always the replay of actions each enabled when committed, and satisfy all table invariants |
| Guarantees.StepRefines | internal/service/booking_service.go:60-114 | each step leaves the tables alone or takes exactly one enabled atomic action |
| Guarantees.OnlySuccessWrites | internal/service/booking_service.go:60-114 | a step that changes the tables is the step in which its request succeeds, or creates an event, or logs a committed cancellation |
| Stories.FailedDidNothing | internal/service/booking_service.go:60-98 | in every run, a request whose result is a failure has committed nothing over its whole life |
| Stories.BookedIsThere | internal/service/booking_service.go:83-120 | a request that reports booking b committed exactly one action, the booking it asked for, and b is in the table with its user, event and count |
| Stories.CancelledIsThere | internal/service/booking_service.go:122-135 | a cancellation that has committed was requested by the owner of the booking, which is and stays cancelled |
| Stories.EveryWriteHasItsRequest | internal/service/booking_service.go:44-154 | every committed action but the creation of events was asked for and committed by exactly one request, and that one reports success |
| Stories.BatchCommitsPrefix | internal/service/booking_service.go:166-174 | for a batch amid any other requests: every entry but the last one sent is committed as requested, once, in order, and reported; the last one too, or it failed and left nothing |
| Stories.BatchRepeatsOnlyAfterCancel | internal/service/booking_service.go:166-174 | two committed entries of a batch book the same event only if the first booking was cancelled in between; otherwise the events are distinct |
| Guarantees.CommittedBookingIsValid | internal/service/booking_service.go:74-114 | at the instant of its commit a booking is allowed (published, undeleted, enough tickets, no active duplicate), has the exact price at the current row, and acts like the atomic booking; a poisoned transaction commits nothing |
| Statements.Answered | internal/service/booking_service.go:44-154 | in every run, any statement of a request does nothing if it is not its next one or has to wait, answers exactly the error the rows force, or goes through with exactly the stated program counter, tables and keys |
| Statements.ErrorsAreTrue | internal/service/booking_service.go:50-98 | a request fails only by an abort or because the rows refuse it at that very step; a booking sees a version conflict only without the row lock |
| Statements.Aborted | internal/service/booking_service.go:58-65 | an abort leaves tables and keys; a booking that had its key still has it to release; what was committed stays reported |
| Statements.Arrives | internal/service/booking_service.go:45-47 | a request starts with its own fields; only a non-positive ticket count is refused before anything is read |
| Statements.FromOutside | internal/repository/postgres/event_repo.go:44-61 | a new event has all its tickets, the given price and status, and version 1; nothing else changes |
| Statements.AcquireLaw | internal/service/booking_service.go:49-58 | the key is taken under the request's token, or the request is turned away |
| Statements.ReadLaw | internal/service/booking_service.go:67-79 | the locking read: not found, waiting, not available, insufficient, or exactly the committed row; every refusal keeps the key for its release |
| Statements.InsertLaw | internal/repository/postgres/booking_repo.go:41-59 | the insert waits for the key in doubt, is refused for an active duplicate, or has exactly the requested row and price |
| Statements.DecrementLaw | internal/repository/postgres/event_repo.go:159-175 | the decrement: conflict, waiting, exhausted INT version, or exactly the ticket count taken off and the version raised |
| Statements.LogLaw | internal/service/booking_service.go:100-109 | a failing audit insert changes nothing but that the commit will fail |
| Statements.BookingCommitLaw | internal/service/booking_service.go:111-114 | the commit writes event row, booking and audit row, each given field by field, or nothing |
| Statements.ReleaseLaw | internal/repository/cache/redis_repo.go:56-67 | the release deletes the key only under its own token, and the result stands |
| Statements.CancelReadLaw | internal/service/booking_service.go:123-130 | the unlocked read: not found, not the owner, or exactly the committed row |
| Statements.CancelLockLaw | internal/repository/postgres/booking_repo.go:100-114 | the locked read: waiting, not found, not active, or exactly the committed row |
| Statements.CancelMarkLaw | internal/repository/postgres/booking_repo.go:117-125 | marking changes nothing that others see |
| Statements.RestoreLaw | internal/repository/postgres/booking_repo.go:127-134 | giving back waits for the event row and fails only if the tickets do not fit |
| Statements.CancelCommitLaw | internal/repository/postgres/booking_repo.go:117-136 | the commit writes booking and event row, each given field by field |
| Statements.CancelLogLaw | internal/service/booking_service.go:137-151 | the audit row holds the booking as it was made and as it is now; its failure changes nothing |
| Statements.UpdateReadLaw | internal/service/event_service.go:98-106 | not found, invalid, or exactly the committed row |
| Statements.UpdateWriteLaw | internal/repository/postgres/event_repo.go:134-156 | the write: unsendable numbers, conflict, waiting, a refused row, or the request's fields over the remaining tickets read, every other row unchanged |
| Statements.DeleteReadLaw | internal/service/event_service.go:140-144 | not found, or on to the deletion |
| Statements.DeleteWriteLaw | internal/repository/postgres/event_repo.go:178-188 | the mark of deletion on an undeleted row, waiting, or not found |
| Locks.HoldsExactly | internal/repository/postgres/booking_repo.go:93-140 | in every run every request holds exactly the row locks and index keys of its place in the transaction, others none |
| Locks.KeysExactly | internal/repository/cache/redis_repo.go:42-67 | while Redis loses no key and no booking dies before its release, each stored key is the key, under its own token, of exactly one booking on its way |
| Locks.OneBookingAtATime | internal/service/booking_service.go:49-58 | in such runs there is a key exactly while a booking of the event is on its way, and never two |
| Guarantees.LockKeysAreOwn | internal/repository/cache/redis_repo.go:42-67 | a request adds a lock key only where there was none and removes only a key holding its own token |
| Refinement.ReadForUpdateOk | internal/repository/postgres/event_repo.go:73-80 | the locking read (or the plain one) yields a committed bookable row that, under the lock, stays the current row |
| Guarantees.OneWriterPerKey | internal/repository/postgres/booking_repo.go:41-59 | no two open transactions ever have an insert or a cancellation pending under the same (user, event), and while an insert is pending no active booking has its key |
| Refinement.SeenStillBookable | internal/repository/postgres/event_repo.go:159-175 | if the version read is still current, then status and price are too and at least as many tickets remain |
| Refinement.UpdateTicketsOk | internal/repository/postgres/event_repo.go:159-175 | after the version-checked decrement the pending writes are exactly what the atomic booking would do, until commit |
| Refinement.LockBookingOk | internal/repository/postgres/booking_repo.go:100-114 | a booking still active when locked is the row read before without a lock |
| Refinement.KeyIsFree | migrations/003_create_bookings.up.sql:18-23 | while a committed active booking is locked no other open transaction has its (user, event) key in doubt |
| Refinement.CommitForOthers | internal/repository/postgres/booking_repo.go:93-140 | a commit that touches no row or key another request holds preserves everything that request relies on |
| Guarantees.RowLockSuffices | internal/service/booking_service.go:68-98 | under the row lock the decrement is never blocked, never a version conflict and never trips a CHECK, for any Redis behaviour; it fails only when the INT version is exhausted |
| Guarantees.VersionCheckSuffices | internal/repository/postgres/event_repo.go:159-175 | in either mode the decrement goes through iff the version read is current and the event undeleted, and then price, status and availability are current; otherwise conflict and no change |
| Guarantees.PriceIsExact | internal/service/booking_service.go:77-81 | the int64 product of a validated booking equals the true product and is at most (2^31 - 1)^2 |
| Schema.PriceFitsBigint | migrations/003_create_bookings.up.sql:7-15 | for counts and prices in INT range the product does not wrap and fits a BIGINT |
| Ledger.LedgerHolds | internal/service/event_service.go:98-121 | remaining + held tickets = total at creation + sum over updates of (remaining read - remaining overwritten) |
| Ledger.LedgerStep | internal/repository/postgres/booking_repo.go:128-134 | book, cancel, delete and create contribute no drift; an update contributes exactly its own |
| Guarantees.LedgerInEveryRun | internal/repository/postgres/event_repo.go:134-175 | the ledger equation in every reachable state of the machine |
| Ledger.SinceVersion | internal/repository/postgres/event_repo.go:136-165 | versions never go back; at an unchanged version only cancellations changed the tickets, by exactly what they gave back |
| Ledger.HonestUpdateDrift | internal/service/event_service.go:99-119 | an honest update drifts by minus the tickets cancelled between its read and its write |
| Ledger.EarlierGetIsHonest | internal/service/event_service.go:98-117 | a version obtained by any earlier GET is honest |
| Ledger.NoOverselling | internal/repository/postgres/event_repo.go:134-156 | with honest updates remaining + held <= total at creation, with equality iff no cancellation fell into an update's gap |
| Guarantees.NoOversellingInHonestRuns | internal/service/event_service.go:98-121 | the same bound and the same iff in every reachable state |
| Resale.ResellsIff | internal/service/event_service.go:98-119 | for every valid history and every update that has read the event at any point of it: it can leave at least m more tickets on sale or held than now, all other updates being honest from now on, iff its write can still match and pass the CHECKs and either the row read has m more tickets than the row now, or it has m tickets and the version leaves room for a booking (and for publishing the event) |
| Resale.RightAfterRead | internal/service/event_service.go:99-117 | right after the read that condition is: a version newer than the row's (by two if the event is not published), m tickets on sale, CHECKs passed |
| Overselling.PutsBackIff | internal/service/event_service.go:98-121 | the same iff for every reachable state of the machine, both modes, any requests in flight, honest updates of the event among them |
| Overselling.OversellsIff | internal/repository/postgres/event_repo.go:134-156 | while all committed updates of the event are honest, a waiting update can leave more tickets on sale or held than were created iff that condition holds for one ticket more than were lost so far |
| Overselling.OnlyNewerVersions | internal/service/event_service.go:98-117 | then an update that can oversell has a version newer than the row it read, however long it waits |
| Overselling.Perform | internal/service/booking_service.go:44-154 | from every idle state the machine can carry out any valid continuation without audit rows of cancellations whose updates write right after their read, disturbing no waiting request |
| Anomalies.FutureVersionOversells | internal/service/event_service.go:99-117 | a concrete run of the code in which an update with a version newer than the row it read leaves two bookings on one ticket |
| Anomalies.CancelInGapLosesTickets | internal/service/event_service.go:99-119 | a concrete honest run in which a ticket is neither held nor remaining |
| Ledger.VersionCountsWrites | migrations/002_create_events.up.sql:15 | version = 1 + booking rows ever committed + successful updates |
| Guarantees.VersionsInEveryRun | internal/repository/postgres/event_repo.go:159-165 | the version count in every reachable state |
| Ledger.VersionUsedOnce | internal/repository/postgres/event_repo.go:134-141 | no two versioned writes succeed from the same (event, version) |
| Guarantees.BookingsInEveryRun | internal/repository/postgres/audit_repo.go:27-59 | at most one active booking per user and event; bookings and create audit rows one to one, each holding the row as inserted; each booking cancelled at most once, exactly when its status says so |
| History.OneActiveStays | migrations/003_create_bookings.up.sql:18-23 | every action keeps at most one active booking per (user, event) |
| History.AuditsStay | internal/service/booking_service.go:100-114 | every action keeps the one-to-one correspondence of bookings and create audit rows, and cancellation logs exact |
| History.ReplayOk | migrations/002_create_events.up.sql:19-22 | whatever is committed in whatever order, CHECKs, statuses, uniqueness and audit correspondence hold |
| History.WhenEnabled | migrations/002_create_events.up.sql:10-22 | when each atomic action is allowed, spelled out on the rows, in both directions |
| History.WhatApplies | internal/service/booking_service.go:77-135 | what each atomic action leaves behind, field by field, every other row unchanged |
| Ledger.BookedOnlyOncePublished | internal/service/event_service.go:57-60 | an event not created as published is booked only after an update has published it |
| Ledger.GivesBackOnce | internal/repository/postgres/booking_repo.go:112-134 | a booking gives its tickets back at most once, exactly when it has become cancelled |
| Guarantees.CommittedCancelFreesTheUser | internal/repository/postgres/booking_repo.go:117-136 | a committing cancellation turns confirmed into cancelled, gives exactly its tickets back and frees the user to book again |
| Ledger.RebookingNeedsCancel | internal/repository/postgres/booking_repo.go:41-59 | in every interleaving a user's second booking of an event is preceded by a cancellation of the first |
| Alone.BookAlone | internal/service/booking_service.go:44-120 | an allowed, undisturbed booking commits, also after an earlier one was cancelled |
| Alone.CancelAlone | internal/service/booking_service.go:122-154 | an allowed, undisturbed cancellation by the owner commits even if its audit insert fails |
| Alone.UpdateAlone | internal/service/event_service.go:98-121 | an update of any event that the CHECKs and the version allow commits when undisturbed, with the atomic effect |
| Alone.DeleteAlone | internal/service/event_service.go:140-161 | an undisturbed deletion of any undeleted event commits |
| Ledger.CancelNeverStuck | migrations/002_create_events.up.sql:20 | with honest updates that never shrink the event every active booking can be cancelled |
| Guarantees.RestoreNeverFails | internal/repository/postgres/booking_repo.go:127-134 | in such runs the restore statement never fails, other requests in flight included |
| Ledger.AllCancelIffFits | internal/repository/postgres/booking_repo.go:112-134 | with no assumption on updates, all active bookings of an event can be cancelled in any order iff remaining + held fits in the total |
| Anomalies.ShrinkingBlocksCancel | internal/service/event_service.go:108-119 | a concrete honest run that leaves an active booking which cannot be cancelled |
| Guarantees.CancelReadWasExact | internal/service/booking_service.go:124-135 | the row pre-read without a lock is the row later locked, and the row logged as new is the committed one |
| AuditDiff.CancelDiffInEveryRun | internal/service/booking_service.go:139-151 | every logged cancellation's diff has exactly status, version, cancelled_at and, iff the clock moved, updated_at, and leads from the creation snapshot to exactly the snapshot of the booking as it is now |
| LockTiming.NoSecondHolder | internal/repository/cache/redis_repo.go:42-54 | until a token's release or the end of its key's life no other acquire of the key succeeds |
| LockTiming.OneFlow | internal/repository/cache/redis_repo.go:42-67 | a flow from acquire to release, whatever time its parts take: its record, and the key gone iff the release is delivered |
| LockTiming.TimeLaw | internal/repository/cache/redis_repo.go:42-54 | what time, expiry and an acquire do to the key, and when nothing |
| LockTiming.FlowLaw | internal/service/booking_service.go:58-65 | what begin, end and release do, and when nothing; a release deletes only its own token's key |
| LockTiming.OnlyOwnerOrExpiryRemoves | internal/repository/cache/redis_repo.go:56-67 | a stored lock disappears only by its own token's release or after its own life |
| LockTiming.TransactionsDisjoint | internal/service/booking_service.go:49-65 | if no transaction is open beyond the life of its flow's key, of any two booking transactions of an event one ended before the other began |
| LockTiming.OverdueOverlaps | internal/service/booking_service.go:49-65 | in every run, whenever a transaction is open past the life of its flow's key, any newcomer can open a second one beside it |
| LockTiming.OverlapIff | internal/repository/cache/redis_repo.go:42-67 | in every run, beside an open transaction a second one of any flow can be open by a deadline iff another flow has not ended, or the key is free by then (now, by expiry, or by a release still to come) |
| LockTiming.OverlapIffOverdue | internal/repository/cache/redis_repo.go:42-54 | for a flow whose own time is not up: iff its time is up by the deadline or another flow is late and has not ended |
| LockTiming.SlowFlowOverlaps | internal/service/booking_service.go:51 | a concrete run in which a booking still open when its key of 5000 ms goes shares the event with the next one, whether Redis drops a key at its expiry or just after it |
| SlidingWindow.Redis.Allow | internal/repository/cache/redis_repo.go:103-130 | the script decides and updates its key as specified and touches no other key |
| SlidingWindow.AtMostLimit | internal/repository/cache/redis_repo.go:110-117 | with clocks within skew, any half-open window of length window - 2 * skew has at most limit admitted requests, expiry included |
| SlidingWindow.LimitIff | internal/repository/cache/redis_repo.go:110-117 | for every window, limit and skew: no run admits more than limit requests in a time window of a length iff the length is at most window - 2 * skew (or limit or length leaves nothing to admit) |
| SlidingWindow.RefinesFullLog | internal/repository/cache/redis_repo.go:103-117 | on one clock a request is admitted iff a log of all admitted requests that never forgets holds fewer than limit in the window |
| Remembering.AdmitsExactly | internal/repository/cache/redis_repo.go:103-130 | for any window, limit and caller clocks: a call is admitted iff fewer than limit admitted requests are counted, one being counted until a call finds its timestamp too old or a pause of the window has passed without an admitted call |
| Remembering.ForgottenAfterWindow | internal/repository/cache/redis_repo.go:110-117 | once the window has passed on the Redis clock since the last admitted call the next is admitted whatever its timestamp |
| AuditDiff.ComputeDiff | internal/service/audit_service.go:44-62 | a key of one state only is in the diff; one with values of the same kind iff they differ; every entry has the two values themselves, nil for a missing one |
| AuditDiff.NumbersRenderApart | internal/service/audit_service.go:48-51 | different numbers never render alike, across positional and exponent form, so no change of a number is lost |
| AuditDiff.SameKindApart | internal/service/audit_service.go:49 | two texts, two flags, two numbers render alike iff they are equal |
| AuditDiff.OtherKindsApart | internal/service/audit_service.go:49 | across kinds exactly a text equal to the text of a number, a flag or nil renders alike |
| AuditDiff.LargeNumberText | internal/service/audit_service.go:49 | a number of a million or more is a mantissa and an exponent that read back as the number |
| AuditDiff.SmallNumberText | internal/service/audit_service.go:49 | a smaller one is its digits without leading zeros |
| AuditDiff.ForwardExact | internal/service/audit_service.go:44-62 | if no key changes its kind, patching forward gives the new state itself iff no nil is newly set |
| AuditDiff.BackwardExact | internal/service/audit_service.go:44-62 | and backward the old one iff no nil was removed |
| AuditDiff.TrailReplaysExactly | internal/service/audit_service.go:41-62 | then the diffs of a chain of nil-free states reach exactly the last one |
| AuditDiff.SnapshotOf | internal/service/audit_service.go:64-71 | the snapshot of a booking, key by key |
| AuditDiff.ForwardReplays | internal/service/audit_service.go:44-62 | patching the old state forward gives the new one as rendered iff no key changes to an explicit nil |
| AuditDiff.BackwardReplays | internal/service/audit_service.go:44-62 | patching the new state backward gives the old one as rendered iff no key changes from an explicit nil |
| AuditDiff.TrailReplays | internal/service/audit_service.go:41-62 | folding the diffs of any chain of nil-free states reaches the last one |
| AuditDiff.DiffIsBlindToTypes | internal/service/audit_service.go:49 | two different states with an empty diff: a number and its text render alike |
| AuditDiff.CancelDiffKeys | internal/service/audit_service.go:64-71 | the exact key set of a cancellation's diff |
| Services.BookingService.BookTicket | internal/service/booking_service.go:44-120 | run alone: success exactly under the listed conditions with the atomic effect, otherwise no table change; each business error exactly in its case; never a version conflict; Redis keys restored |
| Services.BookingService.CancelBooking | internal/service/booking_service.go:122-154 | success exactly for the owner's active booking whose tickets fit back, with the atomic effect and a replayable diff; errors exactly in their cases |
| Services.BookingService.BatchBook | internal/service/booking_service.go:156-175 | run alone: exactly the returned prefix is committed, in order; the error returned is the right one for the entry that stopped the batch, which changed nothing |
| Services.BatchTakesItsTickets | internal/service/booking_service.go:166-174 | per event the remaining tickets fall by exactly the prefix's tickets |
| Services.BatchEventsDistinct | internal/repository/postgres/booking_repo.go:50-55 | the events of a committed batch are pairwise distinct |
| Services.EventService.Create | internal/service/event_service.go:52-88 | success iff the fields are valid and the table takes the row; the new event has version 1, all its tickets and the given status; without one it is a draft that nobody can book |
| Services.EventService.Update | internal/service/event_service.go:98-138 | run alone: success iff valid, current version, remaining within the new total and the row storable, with the effect of the atomic update; a version conflict only for arguments that can be sent; errors exactly in their cases |
| Services.EventService.BatchCreate | internal/service/event_service.go:163-212 | all events are inserted with all their tickets and their status, draft if none is given, or no table changes; a failing commit changes nothing and is still reported as success |
| Services.EventService.Delete | internal/service/event_service.go:140-161 | soft delete iff the event is there and undeleted, with the atomic effect |
| Services.ValidationAgainstChecks | internal/service/event_service.go:214-231 | where validation and table part: valid fields that fit the columns are refused iff both dates fall into one microsecond; storable fields are invalid iff the location is empty or the name is under three bytes; a name of three characters is never too short |
| Services.ValidationGaps | migrations/002_create_events.up.sql:19-22 | both gaps are real: a one-character name passes, and dates half a microsecond apart pass and violate the CHECK |
| Services.AcceptedFields | internal/service/event_service.go:214-231 | what the validation accepts, in characters: three of them, two of which one takes two bytes, or one that takes three, and the other fields |
| Services.StorableFields | migrations/002_create_events.up.sql:10-22 | what the table accepts: widths in characters, no NUL, INT ranges, dates in different microseconds |
| Repositories.CreateBookingInTx | internal/repository/postgres/booking_repo.go:41-59 | a duplicate active key or a failed CHECK poisons the transaction and writes nothing; otherwise the row is inserted |
| Repositories.CancelInDatabase | internal/repository/postgres/booking_repo.go:93-140 | the atomic cancellation with its returned row, or an error in exactly its case and no change |
| Repositories.UpdateTicketsInTx | internal/repository/postgres/event_repo.go:159-175 | the row-level decrement: written, version conflict, or CHECK failure that poisons the transaction |
| Repositories.UpdateEvent | internal/repository/postgres/event_repo.go:134-156 | the versioned absolute write: written, version conflict, or refused (numbers that are no INT and illegal text before any row is looked for, CHECKs and widths on the row) |
| Repositories.SoftDelete | internal/repository/postgres/event_repo.go:178-188 | the atomic delete, or not found |

## Left out

- HTTP handlers, routing, JSON decoding, configuration, logging, migrations runner, authentication and roles: no state shared with the modelled protocol.
- Availability cache: nothing reads or fills it, so `InvalidateEvent` has no effect on the modelled tables.
- Deadlock freedom, fairness and retries: booking and cancelling lock in opposite orders; a victim is an abort, which is always possible in a run.
- Lost commit acknowledgements: a commit succeeds or rolls back.
- Names, descriptions, locations and dates in the interleaved machine: an update request there is one whose texts and dates are valid and fit; otherwise it ends without effect (an abort). The sequential services model them in full.
- Driver details of times: nanoseconds are cut to microseconds; the years a TIMESTAMPTZ can hold are not bounded.
- Audit rows of event create, update and delete: autocommitted with errors ignored, and tied to nothing else.
- Foreign keys to users and the KEY SHARE locks of the inserts: the event row of a booking is locked by its own transaction; users are never deleted by the code.
- Limiter keys (path groups, client addresses): taken as given; the limiter's fail-open on Redis errors is outside the script.
- Lua and JSON numbers are doubles: times, scores and prices above 2^53 would round; the model computes exactly.
- Services.BookingService.BookTicket: run without other requests and without key expiry in between; interleavings are the subject of Protocol.dfy, with the same row-level statements, and of Stories.dfy.
- Services.BookingService.CancelBooking: run without other requests in between; Stories.CancelledIsThere and Guarantees.CommittedCancelFreesTheUser state it under interleaving.
- Services.BookingService.BatchBook: run without other requests in between; Stories.BatchCommitsPrefix and Stories.BatchRepeatsOnlyAfterCancel state it under interleaving.
- Services.EventService.Update: run without other requests between its read and its write; the machine interleaves them, and Overselling.PutsBackIff and Ledger.NoOverselling state what that does to the tickets.
- Overselling.PutsBackIff: the harm of one update while all others are honest; several dishonest ones together are not told apart, only summed in Ledger.LedgerHolds.
- AuditDiff.ComputeDiff: snapshots are flat and numbers integral, as those of bookings and events are.
- AuditDiff.CancelDiffKeys: ids and times are opaque texts that determine them, not RFC 3339 strings.
