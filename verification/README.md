# A verified model of the wills service

This project models the core of a digital will and estate service written in Go, and proves what the
code keeps over whole runs. It covers four components.

**Will lifecycle** (`Wills`, `Outcomes`, `Invariants`, `Runs`, `Answers`, `Provenance`, `Progress`, `Lifecycle`,
`Reminders`, `Interleaving`, `OverlappingUnlocks`, `OverlappingReminders`, `LateWrites`; as programs in
`WillRepos`, `WillServices`, `Handlers`). A service call is split the way the code splits it: a read, a check of
what was read, and a write that does not look at the row again. Put back to back, the three are the atomic call
`Wills.Apply`, pinned from outside in `Outcomes` and `Answers`; runs of atomic calls and of the two deciding
handlers are module `Runs`. Taken apart, with any number of calls between read and write, they are module
`Interleaving`. The facts called durable survive every interleaving. Those called orderly, and the time lock of
a row, hold when calls do not overlap, or when each write still finds what its call read; `LateWrites` and
`OverlappingUnlocks` say for each late write exactly when it does damage. The classes are the program, method by
method, each proved to have exactly the effect of its atomic call on the tables and on the audit log.

**Audit log** (`AuditChain`, `AuditVerification`, `AuditTampering`, `AuditCommitment`, `AuditHistory`,
`AuditAgreement`, `AuditRuns`, `AuditOverlap`, `Rfc3339`, `Clock`, `Text`; as programs in `AuditRepos`).
Entry identifiers, linking, reading order, the verifier, what tampering it notices, what an identifier commits
to, the agreement of the log with the will table, and what is left of the chain when records overlap.

**Cursor pagination** (`Base64Url`, `Pagination`) and **will identifiers** (`WillIds`).

**NZD money** (`Float64`, `Money`) and the **idempotency middleware** (`Idempotency`).

## How the model reads the code

- What the outside world decides is a parameter: clock readings, random bytes, fresh identifiers, the
  LINZ answer, which database statements fail, which of several equally recent rows a query returns.
- Times are nanoseconds. Stored times are cut to microseconds, as `TIMESTAMPTZ` keeps them. Days are 24
  hours, since every time is UTC.
- The hash is a parameter that returns nonempty text without the separator. It is never assumed
  injective; statements that need two preimages not to collide say which two.
- A will's serial number is its place in insertion order, which `created_at` records in the database.
- Floating point is exact binary64 rounding on real numbers, ties to even.

## Where code and documentation differ

The model follows the code.

- The comment on `ConfirmLiveness` says it resets the reminder clock. That is true of the yearly clock by
  which the scheduler of internal/handlers/liveness.go:18-20 picks wills, `last_confirmed_at`; the 24-hour
  spacing of reminders goes by the other column, which a confirmation does not touch.
- The audit log is described as making the replacing or reordering of entries detectable by re-deriving
  identifiers. The verifier re-derives each identifier from the entry's own stored predecessor and never
  compares neighbours. It notices a changed field (`AuditTampering.ReplacementExact`), but never a missing or
  moved entry (`AuditTampering.DeletionUnnoticed`, `ReorderingUnnoticed`), and an actor with the separator in
  it can be split again under the same identifier (`AuditTampering.ResplitUnnoticed`). What does bind the
  history is a known identifier (`AuditOverlap.HeadCommitsUnderOverlap`).
- Identifiers are made from nanoseconds while rows keep microseconds, so an untouched log verifies exactly
  when its clock readings were whole microseconds (`AuditOverlap.VerifiesUnderOverlapExact`).
- The log is called a chain. Records look up their predecessor and insert without a lock, so overlapping ones
  can fork it or give a will two roots (`AuditOverlap.ChainedExact`, `OneRootExact`).
- A cooling-off period is promised after a death report. A second report without delay that read the will
  before the first was written unlocks it at once (`OverlappingUnlocks.SecondReportSkipsDelay`); nothing but a
  write overtaken by another report can (`OverlappingUnlocks.TimeLockExact`, `TooSoonIsOvertaken`).
- Reminders are meant to be 24 hours apart; overlapping requests need not be
  (`OverlappingReminders.TwoRemindersAtOnce`, `SpacedExact`).
- A new will is documented to supersede all active wills of its testator. Two overlapping creations both
  stay active (`LateWrites.OverlappingDraftsBothActive`); without overlap the promise holds.
- No further edits are promised after sealing. That holds without overlap (`Lifecycle.FrozenOnceSealed`).
  With overlap a signature or clause that read a draft may still be written after the lock
  (`LateWrites.LateContentsAfterLock`); once no call that read the draft is under way, nothing can undo the
  freeze (`LateWrites.FrozenForGoodExact`).
- Amounts are said never to use `float64`; `GST` does, and is exact in the range `Money.GstExact` gives.
  Above 2^55 the amount without GST can even fall as the amount rises (`Money.ExGstMonotone`, `ExGstFalls`).
- `IDCursorSQL` is documented for integer columns; it compares with the part of the cursor before a colon,
  so keys with a colon at a page boundary make the walk repeat rows (`Pagination.PagesPartitionExact`).
- The middleware is documented to enforce idempotency. A 2xx answer without a JSON body is never stored, and
  its handler runs again (`Idempotency.SecondRunExact`), and overlapping requests with one key can both
  run (`Idempotency.OverlapRunsTwice`); `Idempotency.OneSuccessPerKey` says exactly when they do.

## Model

| member | source | states |
|---|---|---|
| `Invariants.ApplyDurable` | internal/services/will.go:56-324 | Each service call, as one step, takes a durable table (sealed wills fully signed, heirs later wills of the same testator, parents past draft) to a durable table in which every row has only grown. |
| `Invariants.WriteDurable` | internal/repository/will_repo.go:96-105 | Any write of a call whose check passed keeps the durable facts even when its read is arbitrarily stale, as long as what was read was once true. |
| `Invariants.RemembersAsTableGrows` | internal/repository/will_repo.go:292-325 | What a read established (signatures seen, witness rows counted, wills listed) is never undone by later writes. |
| `Runs.ApplyOrderly` | internal/services/will.go:134-200 | One atomic call keeps: one consistent set of lifecycle timestamps per status, heir exactly if superseded, one active will per testator. |
| `Runs.DraftOrderly` | internal/repository/will_repo.go:269-289 | Superseding every active will found leaves the new draft as its testator's only active will. |
| `Runs.RunKeepsInvariants` | internal/services/will.go:56-324 | Every table any run of non-overlapping requests reaches is durable and orderly. |
| `Runs.RunGrows` | internal/repository/will_repo.go:292-337 | Between any two moments of a run rows are never lost, origins never change, signatures, bequests and heirs accumulate, and no will returns to draft. |
| `Outcomes.SucceedsExactly` | internal/services/will.go:56-324 | A call succeeds if and only if its will exists, stands in the stage for it, is called for by the testator (for a witness row, by anyone else), is ready (signed before witnesses, two witness rows before the lock, the unlock time come), the vault is complete under AES-GCM-256, and the keys are new. |
| `Outcomes.RefusesExactly` | internal/services/will.go:56-324 | Which error comes otherwise, in the code's order: missing will; stage before identity, but for a confirmation the other way round; readiness; vault; keys. A refused call leaves no trace. |
| `Outcomes.ColumnsAfter` | internal/repository/will_repo.go:291-337 | After a successful call on a will, column by column, which call writes it and what; every other column and will is as it was. |
| `Outcomes.CreatedExactly` | internal/services/will.go:345-361 | A creation adds one untouched draft, last in order, with exactly the request's testator, clauses, beneficiaries, executors, vault and delay and the named parent; a draft replaces exactly the testator's own drafts and locked wills that are no codicils. |
| `Outcomes.RecordsExactly` | internal/services/will.go:74-77 | A successful call records an event if and only if it is of a kind the call has, about the will and with the payload that go with it, in its caller's name (the testator's for a lock). |
| `Outcomes.RecordsOnce` | internal/services/will.go:74-77 | ... and none twice. |
| `Provenance.EveryWillWasRequested` | internal/services/will.go:345-361 | At every moment of a run every will goes back to an earlier successful creation, and still holds that request's testator, clauses, beneficiaries, executors, vault, delay and parent. |
| `Provenance.GateIsTheRequests` | internal/handlers/executor.go:99-114 | Whether an identity passes the gate of a will is decided by the executors of the request that created it. |
| `Provenance.ServedAsRequested` | internal/handlers/executor.go:40-97 | Behind every served will: a request that created it with what is served and nominates the caller, then a seal, then a death report, whose delay had run out when the will was unlocked. |
| `Progress.StoryIsServed` | internal/services/will.go:56-200 | After any run, for any complete request, two witnesses other than the testator at different times and any delay: create, sign, witness, witness, lock and report all succeed, and the fetch is answered with the will if and only if the delay has run out and the request nominates the caller. |
| `Answers.GetWillExact` | internal/handlers/executor.go:47-97 | The executor's request, answer by answer: missing exactly without the row; served with the row exactly if it is unlocked or due and the caller nominated; not nominated exactly if open and not; cooling off, with the row's own unlock time, exactly if notified and not due; not unlocked in every other stage. |
| `Answers.GetWillWrites` | internal/handlers/executor.go:59-83 | It changes and records nothing but the unlocking of a will that has come due. |
| `Answers.RemindExact` | internal/handlers/liveness.go:37-92 | The reminder request, answer by answer, and that only a sent reminder writes the column and the log. |
| `Answers.GateExact` | internal/handlers/executor.go:99-114 | Nominated is who is among the captured FLTs, or anyone if none was captured. |
| `Lifecycle.LastWill` | internal/repository/will_repo.go:96-105 | Following superseded_by always ends, at an unsuperseded will of the same testator, inserted strictly later than any superseded will that leads to it. |
| `Lifecycle.Lineage` | internal/services/will.go:207-232 | Following parent links from a codicil always ends at a will that is no codicil; every will on the way is an earlier will of the same testator that has left draft. |
| `Lifecycle.SupersessionSound` | internal/services/will.go:56-79 | In every run: at most one draft-or-locked will per testator (codicils aside); superseded exactly when an heir is named; no codicil is ever superseded. |
| `Lifecycle.RequestMoves` | internal/services/will.go:134-200 | One request either leaves a will's stage alone or makes one of the four legal moves, each only by its own request and from its own status. |
| `Lifecycle.StagesJustified` | internal/services/will.go:134-180 | At every moment of a run a locked will was sealed by an earlier successful Lock, and a death-notified or unlocked will was sealed, then reported dead, and carries the time lock of that report. |
| `Lifecycle.ServedOnlyAfterTimeLock` | internal/handlers/executor.go:59-96 | Over whole runs: a will served to an executor was sealed, then its death was reported, its stored unlock time is no earlier than report time plus delay days, and the caller is nominated. |
| `Lifecycle.LazyUnlockSucceeds` | internal/handlers/executor.go:60-73 | The handler's time-lock test implies the service's: the lazy unlock succeeds, the reload shows the will unlocked, and only the nomination gate decides the answer. |
| `Lifecycle.AtMostThreeChanges` | internal/services/will.go:134-200 | In any run a will changes status at most three times after its creation, never more often than the rank of its status. |
| `Lifecycle.ChangesPerWill` | internal/services/will.go:134-200 | A run that ends with n wills, each listed once, has at most 3n status changes in all. |
| `Lifecycle.FrozenOnceSealed` | internal/services/will.go:134-136 | Once a will has left draft, no later request of the run changes its contents, signatures, witness rows, asset or property clauses, nor makes it a draft. |
| `Lifecycle.GateFixedFromCreation` | internal/handlers/executor.go:99-114 | Whether an identity passes the nomination gate is fixed for every identity when the will is created. |
| `Lifecycle.OnlyTheRightActor` | internal/services/will.go:93-132 | Signature, bequests, heir and confirmation change only for the testator; a witness row is added only to a signed draft, under its caller's name, who is not the testator; no call touches a will it does not name except by superseding. |
| `Reminders.RemindersSpaced` | internal/handlers/liveness.go:50-73 | Reminders recorded through SendReminder are at least 24 hours apart although check and record read the clock separately, and the row always holds the last of them. |
| `Reminders.RemindersAreDaysApart` | internal/handlers/liveness.go:59-67 | The i-th and j-th reminder are at least (j - i) days apart, so a window of length L holds at most L / 24h + 1 reminders. |
| `OverlappingReminders.SpacedExact` | internal/handlers/liveness.go:50-73 | Reminders of overlapping requests are a day apart if and only if no record comes within a day of the reminder the row shows by then. |
| `OverlappingReminders.TooCloseIsOvertaken` | internal/handlers/liveness.go:50-73 | A record that comes too close has been overtaken by another since its request looked. |
| `OverlappingReminders.TwoRemindersAtOnce` | internal/handlers/liveness.go:50-73 | Two requests that look before either records send two reminders at once. |
| `OverlappingReminders.LookThenRecord` | internal/handlers/liveness.go:50-73 | Look and record back to back are the handler on one request. |
| `Interleaving.SafeUnderOverlap` | internal/services/will.go:113-199 | Under every interleaving of any number of calls, each reading first and writing later without looking again: sealed wills have a testator signature and two witness rows, none by the testator; links and parents stay sound; codicils are never superseded. |
| `Interleaving.GrowsUnderOverlap` | internal/repository/will_repo.go:292-337 | Under every interleaving rows are never lost, inserted columns never change, signatures and heirs accumulate, and no will returns to draft. |
| `Interleaving.UninterruptedIsAtomic` | internal/repository/will_repo.go:112-200 | A call nobody interrupts, with all witness rows delivered, is the atomic call. |
| `Interleaving.FreshInterleavingIsSerial` | internal/repository/will_repo.go:291-307 | If every write still finds what its call read, the interleaving leaves exactly the table of the same calls run one by one in write order, which is orderly. |
| `OverlappingUnlocks.UnlockedOnlyAfterTimeLock` | internal/services/will.go:154-200 | Under every interleaving an unlocked will was locked by one written call and later reported dead by another, and was unlocked no earlier than that report plus its delay; with several reports in flight that need not be the report whose unlock time the row carries. |
| `OverlappingUnlocks.TimeLockBreaksExact` | internal/repository/will_repo.go:291-307 | A statement leaves a will unlocked before the unlock time in its own row if and only if it writes an unlock, or a report without delay, before that time. |
| `OverlappingUnlocks.TimeLockExact` | internal/services/will.go:154-200 | All through an interleaving no will is found unlocked before the unlock time in its row if and only if no such write happens. |
| `OverlappingUnlocks.TooSoonIsOvertaken` | internal/services/will.go:154-200 | Such a write comes only from a call that has been overtaken by another report since its read. |
| `OverlappingUnlocks.SecondReportSkipsDelay` | internal/services/will.go:154-180 | Two reports of one death in flight, the second without delay: the will is put under a time lock of days and unlocked at the hour of the report. |
| `LateWrites.LateStatusWriteExact` | internal/repository/will_repo.go:291-307 | A late, unguarded status write leaves the row orderly if and only if the row as it then stands passes a test on its status and unlock time; and its stage does not fall if and only if it is no lock of a will past locked and no delayed report on a will already unlocked or superseded. |
| `LateWrites.StageFallsExact` | internal/repository/will_repo.go:291-307 | Whatever is in flight, a database statement takes a will back to an earlier stage if and only if it is such a late lock or report. |
| `LateWrites.SecondLockReopens` | internal/services/will.go:134-152 | Two locks read on one draft, with a death report without delay between their writes: the unlocked will ends up locked again. |
| `LateWrites.ContentsChangeExact` | internal/repository/will_repo.go:309-325 | Whatever is in flight, a statement changes a will's contents or signatures, sealed or not, if and only if it is a signing or adding call's write of something new to that will. |
| `LateWrites.FrozenUnderOverlapExact` | internal/services/will.go:93-152 | Between two moments of any interleaving a will's contents and signatures stay the same throughout if and only if no such write happens on the way; past draft it stays past draft, and no such write happens unless a call that had read the draft was under way at the start. |
| `LateWrites.FrozenForGoodExact` | internal/services/will.go:93-152 | Once a will is past draft, no continuation with any new calls changes its contents or signatures if and only if no call already under way passes its check and has something new to write to it; none has unless a signing or adding call under way has read the draft. |
| `LateWrites.LateContentsAfterLock` | internal/services/will.go:92-152 | A signature, witness row or clause whose call read the draft before the lock was written lands on the locked will. |
| `LateWrites.LateDraftExact` | internal/repository/will_repo.go:96-105 | A draft created on a stale list leaves one active will if and only if the list is complete; an orderly table if and only if, besides, no listed will was reported dead or unlocked in the meantime; every heir in place if and only if none on the list was superseded in the meantime. |
| `LateWrites.OverlappingDraftsBothActive` | internal/services/will.go:64-72 | Two drafts of one testator that both read before either writes end up both active, whatever else the database holds. |
| `LateWrites.LateLockRevivesSuperseded` | internal/services/will.go:136-152 | A lock that read its draft before a new will superseded it leaves the old will locked with its heir still set. |
| `WillRepos.WillRepo.CreateDraft` | internal/repository/will_repo.go:27-108 | The transaction succeeds exactly when the key is new and no statement fails; then it is the insertion plus all supersessions, otherwise nothing has changed. |
| `WillServices.FailedWriteLeavesNoTrace` | internal/services/will.go:92-152 | A failed write turns success into an error and leaves neither rows nor events; a call refused anyway is refused alike. |
| `WillRepos.WillRepo.FindActiveByTestatorFLT` | internal/repository/will_repo.go:267-289 | The row loop returns exactly the testator's draft or locked wills that are no codicils, in whatever order the database visits the rows. |
| `WillServices.WillService.CreateDraft` | internal/services/will.go:56-79 | The program has exactly the effect of the atomic call on the tables, and records one event for the new will and one per superseded will in the order the query listed them. |
| `WillServices.WillService.SignTestator` | internal/services/will.go:92-109 | Exactly the effect of the atomic call, error order included; a failed write records nothing. |
| `WillServices.WillService.SignWitness` | internal/services/will.go:111-132 | Exactly the effect of the atomic call, error order included; a failed write records nothing. |
| `WillServices.WillService.Lock` | internal/services/will.go:134-152 | Exactly the effect of the atomic call: only a draft with testator signature and two witness rows is locked. |
| `WillServices.WillService.NotifyDeath` | internal/services/will.go:154-180 | Exactly the effect of the atomic call: at once unlocked for zero days, else notified with an unlock time whole days later. |
| `WillServices.WillService.CompleteUnlock` | internal/services/will.go:182-200 | Exactly the effect of the atomic call: only a notified will whose unlock time has come is unlocked. |
| `WillServices.WillService.CreateCodicil` | internal/services/will.go:204-232 | Exactly the effect of the atomic call: a draft under a locked will of the same testator, two events, no supersession. |
| `WillServices.WillService.ConfirmLiveness` | internal/services/will.go:236-254 | Exactly the effect of the atomic call; the reminder column is not touched. |
| `WillServices.WillService.RecordLivenessReminder` | internal/services/will.go:256-264 | Exactly the effect of the atomic call: the time is stored without any check. |
| `WillServices.WillService.AddDigitalAssetClause` | internal/services/will.go:268-285 | Exactly the effect of the atomic call; nothing is recorded in the audit log. |
| `WillServices.WillService.AddPropertyClause` | internal/services/will.go:289-324 | Exactly the effect of the atomic call; nothing is recorded in the audit log. |
| `Handlers.IsNominatedExecutor` | internal/handlers/executor.go:99-114 | The loop accepts exactly the identities that match a stored FLT, or everyone if no FLT is stored. |
| `Handlers.ShortExecutorReadExact` | internal/repository/will_repo.go:230-245 | A truncated executor read admits nobody extra if and only if it still holds a stored FLT or the full list has none. |
| `Handlers.ExecutorHandler.GetWill` | internal/handlers/executor.go:40-97 | The handler has exactly the effect and answer of the executor request: load, unlock if due, reload, gate; a failing unlock answers with an error and changes nothing. |
| `Handlers.LivenessHandler.SendReminder` | internal/handlers/liveness.go:37-92 | The handler has exactly the effect and answer of the reminder request, skipping within 24 hours of the last reminder. |
| `Rfc3339.FieldsDenoteInstant` | internal/services/audit.go:70 | The calendar fields of every instant denote that instant again (proleptic Gregorian calendar, nanoseconds). |
| `Rfc3339.FieldsInRange` | internal/services/audit.go:70 | The calendar fields of every instant are within the month, its days and the clock, leap years included. |
| `Rfc3339.YearsInClosedForm` | internal/services/audit.go:70 | Days before a year: 365 a year, one more every fourth, but for centuries not divisible by 400. |
| `Rfc3339.MonthsInClosedForm` | internal/services/audit.go:70 | Days before a month: from March on, months of 153 days in five, after 59 or 60. |
| `Rfc3339.FormatInjective` | internal/services/audit.go:70 | Two instants never have the same RFC 3339 text with trimmed fraction. |
| `Rfc3339.FormatReadsBack` | internal/services/audit.go:70 | Every timestamp up to the year 9999 reads back from its text as a UTC date-time of section 5.6 of RFC 3339. |
| `Rfc3339.FractionIsShortest` | internal/services/audit.go:70 | The fraction is left out for a whole second and never ends in a zero. |
| `AuditChain.PreimageInFull` | internal/services/audit.go:18-20 | Predecessor, time, event, will and actor, in this order, joined by the separator. |
| `AuditChain.PreimageUnique` | internal/services/audit.go:66-77 | The joined preimage determines all five fields, for any actor string, when predecessor, event and will contain no separator. |
| `AuditChain.PlainPreimageUnique` | internal/services/audit.go:66-77 | A preimage of five separator-free fields has no other reading, whatever the other fields hold. |
| `AuditChain.LatestIndex` | internal/repository/audit_repo.go:38-55 | The latest entry found is of the will, no entry of the will is later, and none is found exactly when the will has none; ties are resolved arbitrarily. |
| `AuditChain.RecordAllChained` | internal/services/audit.go:42-52 | Recording keeps the log chained whatever the clock shows: identifiers distinct, each entry first of its will or continuing a then-newest entry of it; old entries stay. |
| `AuditChain.OneRootPerWill` | internal/services/audit.go:42-52 | With any clock, entries of a will form a tree with one root: no predecessor exactly for the first, otherwise exactly one earlier entry of the same will has that identifier. |
| `AuditChain.OneChainPerWill` | internal/repository/audit_repo.go:57-83 | With strictly increasing stored times, the entries read back in time order form one chain, each naming the one before. |
| `AuditVerification.VerifiesIffWholeMicroseconds` | internal/services/audit.go:59-64 | A recorded log read back from microsecond storage passes verification exactly when every clock reading was a whole number of microseconds. |
| `AuditVerification.EntryVerifiesExact` | internal/repository/audit_repo.go:90-97 | One stored entry re-derives exactly when its reading had no fraction of a microsecond. |
| `AuditVerification.HonestAcceptedExact` | internal/repository/audit_repo.go:85-99 | Unless a cut makes two preimages collide, the verifier accepts such a log, will by will, exactly when its rows keep the very readings its identifiers were made from. |
| `AuditVerification.RecordAllHonest` | internal/services/audit.go:42-52 | Recording derives every identifier from the nanosecond reading and stores the microsecond time. |
| `Clock.StoredIsCut` | migrations/002_features.sql:45 | The stored time is the last whole microsecond not after the reading. |
| `AuditHistory.ReplayCall` | internal/services/will.go:74-77 | The events of a successful call carry the old view of every will (status, signed hash, witnesses, heir) to the new one; a failing call records none. |
| `AuditHistory.ListOrderImmaterial` | internal/repository/will_repo.go:267-289 | The order in which the query lists the wills to supersede changes neither the table nor what the log replays to. |
| `AuditHistory.HistoryMatchesTable` | internal/services/will.go:107-230 | Replaying a run's events gives every will's status, signed hash, witness signatures in order, and heir; and nothing for wills that do not exist. |
| `AuditAgreement.LogIsHistory` | internal/services/audit.go:33-40 | With failing inserts ignored the log is an order-preserving subsequence of the true history; with none failing it is the history. |
| `AuditAgreement.ReadLogTellsTheRow` | internal/repository/audit_repo.go:57-83 | With no failed insert and increasing times, the entries read back are one chain and replay to the row's status, signed hash, witnesses with what they signed, and heir. |
| `AuditAgreement.LogDecidesLock` | internal/services/will.go:134-152 | Under the same conditions the log alone decides whether a lock succeeds: its replay gives the status, the testator's signature and the witness count that Lock tests. |
| `AuditRuns.RunVerifiesExact` | internal/repository/audit_repo.go:85-99 | For a run of requests that do not overlap and bring in UUIDs: the log it leaves verifies for a will exactly when the clock showed whole microseconds at every record of it, unless cutting a time to microseconds makes two preimages collide. |
| `AuditOverlap.HeadCommitsUnderOverlap` | internal/services/audit.go:42-52 | However look-ups and inserts of records overlap, every identifier in the log commits to the whole history behind it, against every log the verifier accepts, if no actor in that history holds the separator; and if and only if, when the verifier accepts the log itself. |
| `AuditOverlap.PlainEventsCommit` | internal/services/audit.go:66-77 | If no recorded event names an actor with the separator, all identifiers of such a log commit to their histories. |
| `AuditOverlap.VerifiesUnderOverlapExact` | internal/repository/audit_repo.go:85-99 | However its records overlapped, a log verifies for a will exactly when the clock showed whole microseconds at every record of it, unless cutting a time makes two preimages collide. |
| `AuditOverlap.ForestUnderOverlap` | internal/services/audit.go:42-52 | However records overlap, every link leads to exactly one entry, an earlier one of the same will. |
| `AuditOverlap.ChainedExact` | internal/services/audit.go:42-52 | The log is chained (each entry continuing a then-newest one of its will) if and only if every insert found the predecessor it had looked up still newest. |
| `AuditOverlap.OneRootExact` | internal/services/audit.go:42-52 | A will has at most one root if and only if no record whose look-up found nothing is inserted after another entry of that will. |
| `AuditOverlap.SomeRoot` | internal/services/audit.go:42-52 | A will with an entry has a root. |
| `AuditOverlap.OverlappingRecordsFork` | internal/services/audit.go:42-52 | Two overlapping records of a will, the first stored later than all before it: the second breaks the chain. |
| `AuditOverlap.LookThenPut` | internal/services/audit.go:42-52 | A look-up followed at once by its insert is one undisturbed record. |
| `AuditRuns.RunHeadCommits` | internal/services/audit.go:16-23 | For a run of requests that do not overlap and bring in UUIDs: every identifier in its log commits to the whole history behind it, against every log the verifier accepts, if no actor in that history holds the separator; and if and only if, when the clock showed whole microseconds. |
| `AuditRuns.PlainCallersCommit` | internal/services/audit.go:66-77 | If moreover no caller's FLT holds the separator, all identifiers of the run's log commit to their histories. |
| `AuditCommitment.HeadCommitsToHistory` | internal/services/audit.go:16-23 | If a recorded log and any log whose identifiers re-derive from whatever its fields hold share an identifier, and no actor behind it holds the separator, every walk back from it in the other log meets the recorded history (same length; same time, event, will, actor and link at every step), or the two logs show two different preimages with one hash. |
| `AuditCommitment.HistoryIsFound` | migrations/002_features.sql:41 | Where links stay inside the other log, as the foreign key demands, a walk from the shared identifier down to a root exists, whatever the actors hold, or the logs show such a collision. |
| `AuditCommitment.CommitmentExact` | internal/services/audit.go:66-77 | Against all accepted logs an identifier of an accepted log commits to its history if and only if no actor in that history holds the separator. |
| `AuditCommitment.ForgedPasses` | internal/repository/audit_repo.go:85-99 | Splitting an entry again at a separator in its actor leaves every identifier re-deriving, with no collision to show for it. |
| `AuditTampering.ResplitUnnoticed` | internal/services/audit.go:67-77 | The failing input: moving the actor's part before a separator to the will keeps preimage and identifier and changes two hashed fields. |
| `AuditTampering.TamperEvidentExact` | internal/repository/audit_repo.go:85-99 | An accepted entry cannot be rewritten under its identifier, collisions aside, if and only if its actor holds no separator. |
| `AuditTampering.ReplacementExact` | internal/repository/audit_repo.go:85-99 | Replacing an entry of an accepted log under its identifier is accepted exactly when the five hashed fields agree, unless the two preimages collide; the payload hash is free. |
| `AuditTampering.DeletionUnnoticed` | internal/repository/audit_repo.go:85-99 | Removing any one entry, or all from one on, of an accepted chain leaves it accepted. |
| `AuditTampering.ReorderingUnnoticed` | internal/repository/audit_repo.go:85-99 | The verdict is the same for every order of the rows. |
| `AuditTampering.DeletionBreaksKeyExact` | migrations/002_features.sql:41 | Deleting an entry breaks the foreign key exactly when a remaining entry names it. |
| `AuditRepos.AuditRepo.Insert` | internal/repository/audit_repo.go:25-36 | Appends one entry unless the statement fails or the identifier exists; then nothing changes. |
| `AuditRepos.AuditRepo.GetLatestEntryID` | internal/repository/audit_repo.go:38-55 | The scan returns the identifier of a newest entry of the will, or none. |
| `AuditRepos.AuditRepo.GetByWillID` | internal/repository/audit_repo.go:57-83 | The scan returns the will's entries, each as often as stored, ordered by time, those of equal times in whatever order the database visits them. |
| `AuditRepos.AuditRepo.VerifyChain` | internal/repository/audit_repo.go:85-99 | Whatever the order of entries with equal times, the loop accepts exactly when every entry of the will re-derives, and otherwise names the first one read that does not. |
| `AuditRepos.AuditService.Record` | internal/services/audit.go:33-52 | The program appends exactly the derived, linked entry, or nothing when the insert fails. |
| `AuditRepos.AuditService.VerifyChain` | internal/services/audit.go:59-64 | Accepts exactly when every entry of the will re-derives from its own stored fields. |
| `WillIds.NewWillId` | internal/services/will.go:367-373 | The in-place edits of the byte buffer give the hyphenated lower-case UUID of the stamped bytes. |
| `WillIds.UuidReadsBack` | internal/services/will.go:372 | The printed identifier has hyphens and hexadecimal digits in their places and reads back as its sixteen bytes. |
| `WillIds.VersionAndVariant` | internal/services/will.go:370-371 | The identifier carries version 4 and the RFC 9562 variant. |
| `WillIds.WillIdsCollide` | internal/services/will.go:367-373 | Two draws give the same identifier exactly when they agree on the 122 bits outside version and variant. |
| `Base64Url.DecodeEncode` | packages/nz-common/pagination/cursor.go:55-59 | Decoding undoes encoding for every byte string, and only the empty one encodes to nothing. |
| `Base64Url.EncodeDecode` | packages/nz-common/pagination/cursor.go:34 | A cursor text that decodes is the encoding of its value exactly when it has no line break and no spare bit set. |
| `Base64Url.DecodesExactly` | packages/nz-common/pagination/cursor.go:34 | A text decodes exactly if it holds digits and line breaks only and the digits leave no one over; the line breaks make no difference. |
| `Base64Url.SameNumber` | packages/nz-common/pagination/cursor.go:57-59 | The sextets carry the bytes' bits in order, most significant first, filled up with zero bits: both read as one number. |
| `Base64Url.DigitIsInTable` | packages/nz-common/pagination/cursor.go:57-59 | The digits are those of table 2 of RFC 4648, in its order. |
| `Pagination.PageFromQuery` | packages/nz-common/pagination/cursor.go:30-53 | A page that comes back without error has a limit between 1 and 100. |
| `Pagination.LimitExact` | packages/nz-common/pagination/cursor.go:41-50 | A decimal limit is refused when zero, negative or beyond int64, and otherwise is itself or 100 if larger. |
| `Pagination.LimitTexts` | packages/nz-common/pagination/cursor.go:41-50 | A limit is accepted if and only if it is a numeral, with a plus or without, denoting a number from 1 to the greatest int64; it counts as that number, up to 100. |
| `Pagination.CursorRoundTrip` | packages/nz-common/pagination/cursor.go:30-59 | Every byte string comes back from the cursor made of it, with the default limit of 20. |
| `Pagination.IdPartExact` | packages/nz-common/pagination/cursor.go:92-100 | The cursor clause compares with the part of the cursor value before its first colon, which is the value itself exactly when it has no colon. |
| `Pagination.ClauseReadsBack` | packages/nz-common/pagination/cursor.go:92-100 | The clause, read as SQL, demands an id strictly above the parameter of the given number, and one argument is bound; without a cursor there is neither. |
| `Pagination.SelectedIs` | packages/nz-common/pagination/cursor.go:92-100 | The query made of clause and arguments, behind any other parameters, returns exactly the rows above the id part of the cursor, all of them without one. |
| `Pagination.PagesPartition` | packages/nz-common/pagination/cursor.go:68-87 | For strictly ascending, nonempty, colon-free keys and any limit 1 to 100, following the cursors ends and the pages put together are the list, in the number of pages PageCount gives. |
| `Pagination.ByteOrderQualifies` | packages/nz-common/pagination/cursor.go:92-100 | Bytewise comparison of keys is an order as the page walk needs it. |
| `Pagination.PageCountIsCeiling` | packages/nz-common/pagination/cursor.go:68-87 | That number is ceil(n / limit), and one for an empty list. |
| `Pagination.PagesPartitionExact` | packages/nz-common/pagination/cursor.go:92-99 | The walk reproduces the list if and only if the last key of every page but the final one is nonempty and free of colons. |
| `Float64.RelativeError` | packages/nz-common/money/money.go:57 | Each floating-point operation is off by at most one part in 2^53. |
| `Money.GstExact` | packages/nz-common/money/money.go:55-58 | While 3m is exact, computed GST is the integer nearest to 3m/23 if and only if 3\|m\| is below 23 * 2^48 or does not leave remainder 11 by 23, and otherwise one cent too far from zero. |
| `Money.GstExactUpToTwo50` | packages/nz-common/money/money.go:55-58 | GST is right to the cent for every \|m\| up to 2^50, and one cent too high at (23 * 2^48 + 34) / 3. |
| `Money.GstErrorBound` | packages/nz-common/money/money.go:55-58 | For every int64 amount computed GST is within half a cent plus \|m\| / 2^53 of 3m/23. |
| `Money.GstOdd` | packages/nz-common/money/money.go:55-58 | GST of the opposite amount is the opposite GST. |
| `Money.NearestGstNearest` | packages/nz-common/money/money.go:55-58 | Exact GST is the one integer within 11/23 of 3m/23 and strictly nearer than any other: there are no ties. |
| `Money.NearestGstMonotone` | packages/nz-common/money/money.go:55-63 | Exact GST and the amount without it both never fall as the amount rises, and the latter is the integer nearest to 20m/23. |
| `Money.GstMonotone` | packages/nz-common/money/money.go:55-58 | Computed GST never falls as the amount rises, over all of int64. |
| `Money.ExGstExact` | packages/nz-common/money/money.go:60-63 | While 3m is exact, the computed amount without GST is the integer nearest to 20m/23 if and only if GST is right. |
| `Money.ExGstMonotone` | packages/nz-common/money/money.go:60-63 | Up to 2^55 + 4 either way the computed amount without GST never falls as the amount rises, even where GST is a cent off. |
| `Money.ExGstFalls` | packages/nz-common/money/money.go:60-63 | That bound is tight: from 2^55 + 4 to 2^55 + 5 it falls by one cent. |
| `Money.SumOfGst` | packages/nz-common/money/money.go:55-58 | Rounding n amounts one by one and rounding their total differ by at most 11(n + 1)/23 cents. |
| `Money.FromDollarsExact` | packages/nz-common/money/money.go:15-33 | Dollars and cents rebuild the amount exactly when it is not negative or has no odd cents. |
| `Money.ToStringReadsBack` | packages/nz-common/money/money.go:35-41 | The printed amount reads back as the amount if and only if it is not the least int64. |
| `Money.ToStringInFull` | packages/nz-common/money/money.go:35-41 | A printed amount is sign, currency, the whole dollars as the shortest numeral, a point and two digits of cents. |
| `Idempotency.CapturingWriter.Capture` | packages/nz-common/middleware/idempotency.go:82-97 | Behind the writer a handler leaves the last status it set and the concatenation of all its writes. |
| `Idempotency.ChunksJoin` | packages/nz-common/middleware/idempotency.go:94-97 | What is captured of a handler is its writes joined in order; headers add nothing. |
| `Idempotency.StatusSetLast` | packages/nz-common/middleware/idempotency.go:56-62 | The captured status is 200 unless one is set, and then the one set last. |
| `Idempotency.Middleware.ServePost` | packages/nz-common/middleware/idempotency.go:34-63 | The program answers and stores exactly as the one-step description: replay a stored key, else run, and store a 2xx result that the column accepts. |
| `Idempotency.AtMostOneSuccess` | packages/nz-common/middleware/idempotency.go:46-62 | Requests that do not overlap, with a working database and JSON answers, run to success exactly once per key that has a row, and never otherwise. |
| `Idempotency.ServeExact` | packages/nz-common/middleware/idempotency.go:34-63 | A POST is replayed, with the row as stored, exactly if it has a key, the key is stored and the look-up works; a run stores its last status and joined writes exactly when it succeeded under a new key with a body the column takes and the INSERT works. |
| `Idempotency.ReplaysFirstSuccess` | packages/nz-common/middleware/idempotency.go:46-53 | Every later POST with the key of a stored success is answered with that success: the status its handler set last and what the column made of all its writes. |
| `Idempotency.OneSuccessPerKey` | packages/nz-common/middleware/idempotency.go:32-80 | For reliable requests overlapping as they like: once none with the key is under way, its handlers have succeeded at least twice if and only if one that succeeds missed the look-up while another that succeeds was under way; otherwise never more than once, and exactly once if a row is stored. |
| `Idempotency.SecondRunExact` | packages/nz-common/middleware/idempotency.go:59-80 | After a first success, the next request with the key runs its handler again exactly when the result was not stored or the look-up fails. |
| `Idempotency.StatusReplayed` | packages/nz-common/middleware/idempotency.go:89-92 | The stored status is the one sent if the handler sets its status once, before it writes. |
| `Idempotency.RowsNeverChange` | packages/nz-common/middleware/idempotency.go:77-80 | Under every interleaving a stored row is written once and never changes. |
| `Idempotency.ReplaysAgree` | packages/nz-common/middleware/idempotency.go:46-53 | Under every interleaving all replays of a key are alike and repeat a success that ran for that key. |
| `Idempotency.ReplayIsSomeones` | packages/nz-common/middleware/idempotency.go:46-62 | Under every interleaving a replay is the last status and the joined writes of a successful handler that some request with the key came with. |
| `Idempotency.LookupRunInsert` | packages/nz-common/middleware/idempotency.go:34-63 | Look-up, run and insert back to back are the middleware on one request. |
| `Idempotency.OverlapRunsTwice` | packages/nz-common/middleware/idempotency.go:46-62 | Two requests that both miss the key both run to success. |

## Left out

- Interleaving.FreshInterleavingIsSerial: covers the will table; the audit records of overlapping calls are those of `AuditOverlap`, which takes any events and is not tied to particular interleavings of calls.
- Money.GstExact: stops at 3|m| = 2^53, where the product itself is rounded; beyond it `Money.GstErrorBound` bounds the error for every int64.
- Rfc3339.FormatInjective: instants before the year 1 are not modelled; `AddDate` overflow for astronomically many days is not modelled either.
- AuditAgreement.ReadLogTellsTheRow: the log records neither clauses nor the row's own timestamps (they are separate clock readings), so replaying it cannot give those columns.
- Idempotency.Middleware.ServePost: only POST requests are modelled; the JSONB column is a parameter that may refuse or normalise a body.
- Payload hashes of the audit log are stored but not hashed by the code, so identifiers do not commit to them; agreement between signers' hashes and distinctness of witnesses are not enforced by the code and not claimed.
- Database failures in the middle of reads, and of the reload after a lazy unlock, are not modelled except where a lemma says so (witness rows, executor rows).
- `buildWill` fills in missing identifiers of clauses, beneficiaries and executors; in the model the request already carries them, as fresh identifiers do everywhere.
- The child tables of a will and the digital-asset and property tables are columns of its row; foreign keys from clauses to beneficiaries count as failing statements.
- `SetVault` and `UpdatePropertyClauseLINZ`, which nothing calls.
- HTTP plumbing, JSON decoding, routing, CORS, logging, request identifiers, the death webhook's signature check and the beneficiary stubs: no property spanning operations.
- SHA-256 and randomness themselves, PostgreSQL internals, RealMe SAML and sessions, the LINZ, MBIE, Health NZ, BDM and Redis clients, and the web front end.
