# Haitatsu: a verified model of its protocols

This project models the parts of the Haitatsu mail server where a mistake would be
hardest to see: the IMAP session view over a mail store that other sessions change
underneath it, the store's UIDs and byte counters, garbage collection, the leases of
background jobs, the send limits, the TypeSafe circuit breaker and the per-mailbox
spam policy that shares one evaluation, and four self-contained algorithms (the MIME
walk, header folding, SPF evaluation, the token bucket). What is proved holds of every
input, every run or every interleaving of the model.

`dafny verify dfyconfig.toml` checks all of it.

## How it is put together

Where the server changes an object in place there is a class whose methods do the same
steps, and each method is proved against a function on values. What the server
promises is then proved about those functions and about the sequences of steps they
make, as lemmas.

| file | content |
|---|---|
| `Common.dfy` | Option, Result, sums over finite sets |
| `MailModel.dfy` | the store as a value and its transactions; UID order; conservation of byte counters |
| `Transactions.dfy` | each transaction of the store spelled out field by field |
| `MailStore.dfy` | the store object; batch deletion refines one-at-a-time deletion |
| `ImapView.dfy` | the view, the responses, the client that replays them; resync |
| `ImapFolder.dfy` | folder views stay ascending; a full resync is the load |
| `ImapSession.dfy` | the session object: SELECT, resync, NOOP, EXPUNGE, MOVE, STORE |
| `CommandMirror.dfy` | whole commands as the client sees them, failures included |
| `ImapWorld.dfy` | every interleaving of any number of sessions and store transactions; debts over executions; commands as steps |
| `Orphans.dfy` | the paged deletion of orphaned messages |
| `OutboundQueue.dfy` | delivery jobs: claim, finish, recovery of stale leases |
| `JobLease.dfy` | import and export leases in time |
| `Submission.dfy` | send limits rechecked under a row lock |
| `Breaker.dfy` | the circuit breaker and its runs |
| `MailboxPolicy.dfy` | per-mailbox placement with one shared evaluation; the overrides the API stores |
| `MimeWalk.dfy`, `FoldHeader.dfy`, `Spf.dfy`, `RateLimit.dfy` | the four algorithms |

Three ideas recur. Every pass over a view (resync, EXPUNGE, MOVE) is a sequence of
verdicts, keep or drop, on its old entries; one lemma shows that a client replaying
what a pass writes ends with what the pass leaves (`ImapView.PassMirrors`). Whatever
other sessions do to the store in the meantime is one relation between stores, `Later`,
which every transaction keeps and which is transitive (`UidOrder.RunLater`). Byte
counting is about the drift of a counter from the rows it counts: each operation keeps
the drift, so operations compose without recounting.

## What was found

- A failed EXPUNGE leaves the client out of step: responses for messages already
  expunged have been written while the view keeps all its entries. The client still
  mirrors the view exactly when the failing message is the first one to be expunged
  (`CommandMirror.FailedExpungeMirrors`, with `FailedExpungeExample`, and as a step of
  every interleaving `ImapWorld.FailExactly`). A failed MOVE has written nothing but
  its resync (`FailedMoveMirrors`).
- A purge of a mailbox is several statements outside any transaction. When it stops
  after the first, the mailbox survives with its old byte counter and no rows
  (`ByteCount.StoppedPurge`). Over any run a counter is off by exactly what purges of
  its mailbox took away without counting (`ByteCount.RunDrift`), so it is exact as long
  as no purge of that mailbox has begun (`ByteCount.Conservation`).
- Resync keeps the client in step exactly when nothing is dropped without a writer and
  nothing is appended through the writer that swallows EXISTS
  (`ImapView.ResyncMirrors`); no caller combines these (`ImapView.CallerMode`).
- A move conserves the byte counter exactly when its snapshot is right about the row
  being deleted, or the message weighs nothing (`ByteCount.MoveDrift`).
- Lowering any of a mailbox's thresholds never takes a message out of Junk, for every
  number the API lets be stored (`SpamRules.LoweringKeepsJunk`, with
  `ParseSpamThresholds`, the only writer). The policy also reads numbers the API
  refuses, and would fall back to the default for them; what it does with any number
  is stated exactly by `SetJunkThreshold`, `SetSpamThreshold` and
  `SetPhishingThreshold`, with `RefusedNumberExample`.
- A mailbox's placement, reasons and decision are those it would get alone, but its
  TypeSafe record may hold probabilities measured for the other recipients
  (`SpamRules.SameAsAlone`).
- The comment on the lease constants promises that a worker stops before another can
  claim its job. That holds exactly when every call returns in less than one renewal
  interval of two minutes, the claim included (`LeaseRuns.ExclusiveExactly`).
- The send limits hold in every window of an hour or a day although clocks need not
  follow lock order: it is enough that a job is not stamped before its own check
  (`SubmissionRuns.EveryWindow`).
- A running cooldown of the circuit breaker keeps every request out, but it can be cut
  short: a probe that went out before and comes back with success ends it at once
  (`BreakerRuns.FailureKeepsOut`, with `SucceedingProbeReopens`).
- Evicting idle buckets changes some answer exactly when 600 seconds do not refill a
  whole burst (`TokenBucket.EvictionUnseenExactly`).

## Model

| member | source | states |
|---|---|---|
| `UidOrder.RunLater` | internal/mailstore/store.go:51-239 | over any sequence of transactions, folders created and dropped included, a folder's next UID never falls, and a row live at a UID handed out before is the very row that was live there: UIDs are unique and never reused |
| `UidOrder.VacantForever` | internal/mailstore/store.go:184-239 | a UID that was handed out and is no longer occupied stays empty for ever |
| `UidOrder.ApplyLater` | internal/mailstore/store.go:51-575 | every single transaction or purge statement, successful or not, keeps UIDs valid and moves the store only later |
| `UidOrder.AttachLater` | internal/mailstore/store.go:117-150 | a successful attach puts its row at the folder's next UID, where nothing was live, advances the folder by one, and moves the store only later |
| `UidOrder.NewFolderLater` | internal/mailstore/store.go:60-62 | a new folder disturbs no UID of any other and is empty, because its id is fresh |
| `UidOrder.MoveLater` | internal/mailstore/store.go:200-239 | a move, from any snapshot, puts its row at the target's next UID, where nothing was live |
| `ByteCount.Conservation` | internal/mailstore/store.go:117-182 | a counter that starts equal to its live sizes, over a run whose attaches give the message's size and whose moves are given current items, ends equal to them if and only if purges of its mailbox took no bytes; in particular while no purge of it has begun |
| `ByteCount.RunDrift` | internal/mailstore/store.go:155-575 | over any such run a counter moves away from its live rows by exactly what purges of its mailbox took away without counting |
| `ByteCount.PurgeRowsDrift` | internal/mailstore/store.go:561-563 | the first statement of a purge sets the counter off by all that was live, and no other mailbox's |
| `ByteCount.StoppedPurge` | internal/mailstore/store.go:549-575 | a purge that stops there leaves the mailbox with its old counter and no live rows |
| `ByteCount.ApplyDrift` | internal/mailstore/store.go:117-575 | the change of a drift by every single operation |
| `ByteCount.AttachDrift` | internal/mailstore/store.go:117-150 | an attach counts what it places, or nothing when it fails |
| `ByteCount.MoveDrift` | internal/mailstore/store.go:200-239 | a move conserves the counter if and only if the snapshot is right about deletion or the message weighs nothing |
| `ByteCount.SoftDeleteDrift` | internal/mailstore/store.go:249-279 | a soft deletion frees exactly the bytes of a row that was live, once |
| `ByteCount.CollectDrift` | internal/cleanup/worker.go:204-218 | collecting a message changes no mailbox's live bytes |
| `Transactions.AttachFails` | internal/mailstore/store.go:76-182 | an attach fails, changing nothing, exactly for want of folder or mailbox, on a row id in use, or, enforced, when a positive quota would be passed |
| `Transactions.AttachDone` | internal/mailstore/store.go:117-150 | otherwise one live row with the given contents appears at the folder's next UID, the counter grows by the size, and nothing else changes |
| `Transactions.MoveFails` | internal/mailstore/store.go:200-239 | a move of an item live where it is to go does nothing; one fails, changing nothing, exactly without a target, a row or, to restore, a mailbox |
| `Transactions.MoveDone` | internal/mailstore/store.go:200-239 | any other move puts the row, live and without \Deleted, at the target's next UID with its message, mailbox and other flags, counts a restored row again, and changes nothing else |
| `Transactions.SoftDeleteDone` | internal/mailstore/store.go:249-279 | a soft deletion stamps a live row and takes its size off the counter, does nothing to any other, and fails only for want of the mailbox |
| `Transactions.PurgeDone` | internal/mailstore/store.go:549-575 | each statement of a purge takes the rows, the folders or the mailbox itself and nothing of any other mailbox |
| `Transactions.UnreferencedMeans` | internal/cleanup/worker.go:167-183 | what keeps a message is a live row, a row deleted at or after the retention limit, or a job that is queued, waiting for its next attempt or being processed |
| `Transactions.CollectDone` | internal/cleanup/worker.go:204-218 | collecting leaves a message so kept with all its rows, leaves nothing of one that is not, and leaves every other message and row |
| `BatchDelete.DeleteEachMarks` | internal/mailstore/store.go:249-279 | deleting items one at a time ends with exactly their live rows marked |
| `BatchDelete.SameDriftSameStore` | internal/mailstore/store.go:281-360 | two stores with the same rows and the same drift have the same counters |
| `BatchDelete.BatchDrift` | internal/mailstore/store.go:323-360 | one subtraction of the chunks' total keeps every drift |
| `MailStorage.MailStore.AllocateFolderUid` | internal/mailstore/store.go:184-190 | hands out the folder's next UID and advances it; a missing folder changes nothing |
| `MailStorage.MailStore.AddUsedBytes` | internal/mailstore/store.go:155-182 | succeeds exactly when the mailbox exists and, if enforced, its positive quota is not passed; changes nothing otherwise |
| `MailStorage.MailStore.Attach` | internal/mailstore/store.go:76-150 | is the attach transaction; an enforced one never passes a positive quota, a failed one changes nothing |
| `MailStorage.MailStore.Move` | internal/mailstore/store.go:200-239 | is the move transaction, restoring a deleted row included |
| `MailStorage.MailStore.SoftDelete` | internal/mailstore/store.go:249-279 | is the soft deletion, idempotent on deleted rows |
| `MailStorage.MailStore.MarkChunk` | internal/mailstore/store.go:323-360 | marks one chunk's live rows and returns the bytes they held |
| `MailStorage.MailStore.SoftDeleteBatchInTx` | internal/mailstore/store.go:323-360 | over chunks of 500, marks exactly the listed live rows and keeps every drift |
| `MailStorage.MailStore.SoftDeleteMany` | internal/mailstore/store.go:281-321 | for any list (repeated items, several mailboxes, deleted items, any length) ends in the very store that deleting one at a time ends in |
| `MailStorage.MailStore.SetFlagsMany` | internal/mailstore/store.go:400-438 | changes the flags of the listed rows and nothing else |
| `MailStorage.MailStore.RecomputeUsedBytes` | internal/mailstore/store.go:501-522 | sets the counter to the sum of live sizes; the identity on a counter that was right |
| `MailStorage.MailStore.PurgeMailbox` | internal/mailstore/store.go:549-575 | runs its statements in order with others' transactions between them and stops at the first that fails |
| `MailStorage.PurgeInOrder` | internal/mailstore/store.go:549-575 | undisturbed, a purge takes the mailbox's rows first, then its folders, then itself |
| `ImapView.PassMirrors` | internal/imapserver/view.go:172-236 | a client mirroring the old entries that replays what any pass writes mirrors what the pass leaves, length and UIDs position by position |
| `ImapView.PassMirrorsUpTo` | internal/imapserver/view.go:184-216 | the same after every prefix of the pass, over a half-compacted list |
| `ImapView.ResyncMirrors` | internal/imapserver/view.go:167-242 | for every writer, mode and load, resync keeps the client in step if and only if no entry is dropped without a writer and none appended through the expunge-only one |
| `ImapView.QuietResync` | internal/imapserver/view.go:172-236 | with no writer and an empty mode nothing is renumbered, no stored flag changes and nothing is written |
| `ImapView.ResyncWithoutExpunge` | internal/imapserver/view.go:184-216 | without permission to expunge no EXPUNGE is written |
| `ImapView.ResyncDebts` | internal/imapserver/view.go:172-236 | after a resync that did not return early the three pending bits say exactly what is still owed against the load, and a debt survives exactly the resyncs that may not pay it |
| `ImapView.GoneDebt` | internal/imapserver/view.go:184-236 | gone entries are owed after a resync if and only if they were before and expunging was not allowed |
| `ImapView.ExistsDebt` | internal/imapserver/view.go:217-236 | missing messages stay owed if and only if extending was not allowed or there was no writer |
| `ImapView.FlagsDebt` | internal/imapserver/view.go:184-216 | differing flags stay owed if and only if there was no writer |
| `ImapView.ResyncTells` | internal/imapserver/view.go:184-216 | with the real writer every message whose flags differ is told its new flags, and every flag told is that of the entry now at its position |
| `ImapView.DebtForcesResync` | internal/imapserver/view.go:172-182 | the first resync whose mode may pay a debt cannot return early |
| `ImapView.SkippedOnlyIf` | internal/imapserver/view.go:172-182 | a resync returns early only if nothing was announced, it is not forced, no debt may be paid, and the last one is less than thirty seconds old |
| `ImapFolder.LoadFits` | internal/imapserver/view.go:103-119 | a fresh load is ascending, below the next UID, and knows every live message |
| `ImapFolder.LoadIs` | internal/imapserver/view.go:103-119 | a load has one entry for each live row of the folder, with its UID, message and flags, by ascending UID, and no other |
| `ImapFolder.FitsLater` | internal/imapserver/view.go:184-237 | nothing others do to the store makes a view stop fitting: every UID it does not know exceeds every UID in it |
| `ImapFolder.ResyncAscending` | internal/imapserver/view.go:184-237 | every resync of a folder view leaves it strictly ascending |
| `ImapFolder.ResyncFits` | internal/imapserver/view.go:184-237 | every resync, whatever its writer and mode, leaves a view that fits |
| `ImapFolder.CompactFits` | internal/imapserver/copy.go:45-79 | dropping entries whose UIDs are vacant leaves a view that fits |
| `ImapFolder.AscendingUnique` | internal/imapserver/view.go:103-119 | a strictly ascending list is determined by its members |
| `ImapFolder.FullResyncIsLoad` | internal/imapserver/view.go:167-242 | with a real writer and permission to expunge and extend, the view after resync is the load itself, with no debt left |
| `ImapSession.Session.Select` | internal/imapserver/session.go:119-148 | the view starts as the load of the folder, nothing pending |
| `ImapSession.Session.LoadEntries` | internal/imapserver/view.go:103-119 | every live row of the folder once, by ascending UID |
| `ImapSession.Session.DrainChanges` | internal/imapserver/view.go:91-101 | empties the queue and says whether there was anything in it |
| `ImapSession.Session.Resync` | internal/imapserver/view.go:167-242 | returns early exactly when allowed to; otherwise makes the specified view and writes the specified responses |
| `ImapSession.Session.Reconcile` | internal/imapserver/view.go:184-216 | the first loop of resync keeps, rewrites and drops as judged, and notes owed flags |
| `ImapSession.Session.Append` | internal/imapserver/view.go:217-236 | the last loop appends exactly the unknown messages, or notes that they are owed |
| `ImapSession.Session.Selected` | internal/imapserver/view.go:65-89 | the selected indexes, ascending and without repetition: a UID selects its entry, sequence number n the n-th, a final `*` the last |
| `ImapSession.Session.Poll` | internal/imapserver/session.go:448-456 | nothing once the credentials are revoked, else a resync with the real writer; without permission it writes no EXPUNGE |
| `ImapSession.Session.ExpungeEntry` | internal/imapserver/session.go:516-533 | on success nothing is live at the entry's UID any more, whatever others commit before the read, before the Trash is looked up and before the write; undisturbed, no other row changes |
| `ImapSession.Session.ExpungeMove` | internal/mailstore/store.go:241-247 | the move into the Trash just looked up leaves the old UID vacant under interference |
| `ImapSession.Session.ExpungeCommand` | internal/imapserver/session.go:484-514 | on success exactly the entries marked \Deleted, and in the UID set if there is one, leave, each told at its place, and their UIDs are vacant (undisturbed, the messages are in the Trash or deleted); a failure is at such an entry and the view keeps all; undisturbed, every row that is not live in the folder, marked \Deleted and in the set is untouched either way |
| `ImapSession.SyncedAre` | internal/imapserver/session.go:495-497 | the entries after the forced resync are exactly those of the load whose UID the view had listed |
| `ImapSession.ExpungeLeaves` | internal/imapserver/session.go:498-512 | exactly the entries that are not marked \Deleted, or whose UID is outside the set, are left |
| `ImapSession.Session.LoadLive` | internal/imapserver/copy.go:82-102 | the live rows behind the selected entries that are not gone |
| `ImapSession.Session.MoveRows` | internal/imapserver/copy.go:45-62 | moves row by row under interference; on success every chosen UID is vacant in the source folder and, undisturbed, every chosen message that was live is in the target and no other row changes |
| `ImapSession.Session.MoveOne` | internal/imapserver/copy.go:104-133 | one row moved on a snapshot read earlier |
| `ImapSession.Session.MoveCommand` | internal/imapserver/copy.go:15-80 | acts on the UIDs chosen before its resync; on failure only the resync was told; on success nothing but chosen entries leaves, and undisturbed all of them do; undisturbed, every row not live in the folder at a chosen UID is untouched either way |
| `ImapSession.RemoveLeaves` | internal/imapserver/copy.go:63-80 | what a MOVE leaves is the entries it did not remove |
| `ImapSession.Session.Compact` | internal/imapserver/copy.go:63-80 | the moved entries leave the list, each told at its place |
| `ImapSession.Session.StoreCommand` | internal/imapserver/session.go:535-614 | every selected message that still exists gets its own new flags in the store and the view, however they are grouped, and, unless silent, exactly one FETCH with them; length and UIDs stay |
| `ImapSession.Session.GroupFlags` | internal/imapserver/session.go:555-590 | groups partition the chosen rows by their new flags |
| `Vacating.MoveVacates` | internal/mailstore/store.go:200-239 | a move on a stale snapshot still leaves the old UID of its row vacant |
| `Vacating.SoftDeleteVacates` | internal/mailstore/store.go:249-279 | so does a soft deletion |
| `CommandMirror.CommandMirrors` | internal/imapserver/session.go:484-514 | a successful EXPUNGE or MOVE, its resync included, leaves the client in step |
| `CommandMirror.FailedMoveMirrors` | internal/imapserver/copy.go:15-80 | a MOVE that fails leaves the client in step |
| `CommandMirror.FailedExpungeMirrors` | internal/imapserver/session.go:484-514 | an EXPUNGE that fails leaves the client in step if and only if the failing message is the first to be expunged |
| `CommandMirror.FailedExpungeExample` | internal/imapserver/session.go:484-514 | two doomed messages, the second deletion failing: the client then takes UID 2 for the first of two messages |
| `ImapWorld.EveryExecution` | internal/imapserver/view.go:167-242 | through every interleaving of folder and label sessions, transactions, successful and failed commands, no client sees a response it cannot place and all mirror their views, but for sessions in which an EXPUNGE failed after telling; and all folder views fit |
| `ImapWorld.StepOk` | internal/imapserver/view.go:167-242 | each single step, of any session or of the store, keeps this |
| `ImapWorld.FailExactly` | internal/imapserver/session.go:484-514 | a failed EXPUNGE leaves its client in step if and only if it had told nothing |
| `ImapWorld.ConvergesAfterAnything` | internal/imapserver/view.go:167-242 | after any execution a full resync makes a folder's view the load, clears the bits and leaves the client in step |
| `GoneDebts.StaysOwed` | internal/imapserver/view.go:184-236 | through everything any session or transaction does, a gone entry stays listed, and its noted debt noted, until its session selects anew, may expunge, or expunges it by command |
| `GoneDebts.FirstPayment` | internal/imapserver/view.go:172-236 | the first resync then allowed to expunge does not return early and takes the entry off the list |
| `GoneDebts.StepKeepsOwed` | internal/imapserver/view.go:184-236 | each single step that may not pay keeps the debt |
| `CommandSteps.ExpungeSteps` | internal/imapserver/session.go:484-514 | what a successful EXPUNGE promises makes it a resync and a compaction of the interleavings |
| `CommandSteps.FailedExpungeSteps` | internal/imapserver/session.go:484-514 | what a failed one promises makes it a resync and a failing step |
| `CommandSteps.MoveSteps` | internal/imapserver/copy.go:15-80 | what a successful MOVE promises makes it a resync and a compaction |
| `OrphanRules.CollectExactly` | internal/cleanup/worker.go:167-218 | collecting removes a message and its rows if it has no live row, no row deleted within the retention and no open job, and otherwise nothing |
| `OrphanRules.CollectKeeps` | internal/cleanup/worker.go:204-218 | collecting one message leaves every other unreferenced message unreferenced |
| `OrphanRules.LeftAloneStays` | internal/cleanup/worker.go:167-183 | a message that nobody attaches, moves a row of, or queues anywhere in a run stays unreferenced through it |
| `OrphanCleanup.ReadPage` | internal/cleanup/worker.go:146-155 | the first 200 candidates beyond the last id, in order |
| `OrphanCleanup.DeleteMessageRows` | internal/cleanup/worker.go:185-218 | one transaction: a message with a live row, a row deleted within the retention, or a queued, waiting or processing job is left as it is; otherwise it goes with its rows |
| `OrphanCleanup.CleanupOrphanedMessages` | internal/cleanup/worker.go:142-165 | one pass ends under any interference; all it does is collect messages that were old when it began; every old orphan that stays unreferenced in the stores actually reached is gone; with no interference an old message with no live row, no row deleted within the retention and no queued, waiting or processing job is gone, and every other is left with its rows |
| `OrphanCleanup.SweptMeans` | internal/cleanup/worker.go:142-183 | what sweeping the old orphans keeps and takes, in terms of rows and jobs |
| `OrphanCleanup.LeftAloneGone` | internal/cleanup/worker.go:142-165 | so every old orphan that nobody takes up during the pass is gone after it, whatever happens to other messages |
| `OutboundQueue.Queue.Claim` | internal/outbound/relay.go:150-208 | takes an oldest job that is not finished, due and unlocked or past its lease, or finds that there is none; one taken over counts an attempt |
| `OutboundQueue.Queue.Finish` | internal/outbound/relay.go:316-359 | takes effect exactly when the row is still locked under the worker's name: success makes it sent and reports nothing; a permanent failure, or a temporary one at the last attempt, makes it failed and reports once; any other temporary failure puts it back for a retry after the delay |
| `OutboundQueue.Queue.RecoverStaleLeases` | internal/cleanup/worker.go:220-224 | returns exactly the processing rows whose lease has passed, one attempt up |
| `OutboundRuns.AtMostOnce` | internal/outbound/relay.go:157-359 | over any claims, crashes, takeovers, recoveries and late finishes, worker ids shared or not: at most one terminal transition, reported exactly if it is a failure, attempt counts strictly increasing from claim to claim, at most MaxAttempts effective finishes |
| `OutboundRuns.StepSound` | internal/outbound/relay.go:157-340 | each event keeps the invariant behind this |
| `OutboundRuns.TakeSound` | internal/outbound/relay.go:157-189 | a claim sees more attempts than every earlier one |
| `OutboundRuns.TerminalForever` | internal/outbound/relay.go:157-340 | a finished job never changes again |
| `OutboundRuns.TerminalExplained` | internal/outbound/relay.go:316-340 | a job is sent only if an effective finish had success, and failed only if one had a permanent failure or a temporary one at the last attempt |
| `OutboundRuns.LeaseHolds` | internal/outbound/relay.go:157-189 | until its lease ends a claimed job changes only by a finish under its worker's name |
| `OutboundRuns.RetryWaits` | internal/outbound/relay.go:157-189 | a job waiting for a retry is left alone until its next attempt is due |
| `JobLease.Job.Claim` | internal/importexport/import.go:194-246 | claims exactly a job that is open and unlocked or past its lease |
| `JobLease.Job.Renew` | internal/importexport/import.go:257-260 | extends the lease exactly while the owner holds it |
| `JobLease.Job.Release` | internal/importexport/import.go:277-284 | requeues exactly a job the owner holds |
| `JobLease.Job.Close` | internal/importexport/import.go:180-192 | ends the job, and emits its event, only for the owner that holds it |
| `JobLease.Job.Recover` | internal/cleanup/worker.go:228-232 | requeues exactly a processing job whose lease has passed |
| `JobLease.Renewer.Returned` | internal/importexport/import.go:261-272 | cancels on a lost row at once, on errors once six minutes have passed since the last success, and otherwise never |
| `LeaseRuns.ExclusiveExactly` | internal/importexport/import.go:36-42 | no two uncancelled workers run one job, and each still holds its lease, if and only if calls take less than one renewal interval |
| `LeaseRuns.LeaseOutlivesWorker` | internal/importexport/import.go:248-275 | a worker on its renewal schedule has an unexpired lease, however many renewals have failed |
| `LeaseRuns.NextSound` | internal/importexport/import.go:165-284 | every event of any worker keeps the invariant |
| `LeaseRuns.SlowCallsOverlap` | internal/importexport/import.go:248-275 | with calls as slow as one interval there is a run with two uncancelled workers |
| `LeaseRuns.ClosesOnce` | internal/importexport/export.go:76-121 | however slow calls are, a job reaches at most one terminal state and has at most one terminal event |
| `LeaseRuns.EndedAsAsked` | internal/importexport/import.go:165-192 | a job is completed, or failed, only because the worker that held it closed it as that |
| `SendLimits.RecipientsSince` | internal/outbound/submission.go:313-323 | counts the recipients of the scope's jobs from a time on |
| `SendLimits.EnforceLimits` | internal/outbound/submission.go:287-311 | admits exactly the counts that fit all three limits, and names the error |
| `SendLimits.CountsExactly` | internal/outbound/submission.go:313-323 | each job counts once, with its recipients, exactly if it is of the scope and no older than the window; any other is forgotten |
| `SubmissionRuns.EveryWindow` | internal/outbound/submission.go:219-323 | after any interleaving no hour and no day, wherever it starts, holds more recipients of one mailbox or domain than its limits |
| `SubmissionRuns.FittingIsAdmitted` | internal/outbound/submission.go:219-311 | a submission that the hour and the day up to now have room for is admitted and can be committed |
| `SubmissionRuns.NextSound` | internal/outbound/submission.go:222-261 | every step keeps that each committed job fitted its budgets and each lock holder's check stays valid |
| `SubmissionRuns.WindowBound` | internal/outbound/submission.go:287-311 | if every job fitted the window ending at itself, every window fits |
| `SubmissionRuns.OthersCommit` | internal/outbound/submission.go:263-285 | another scope's commit leaves a lock holder's check valid |
| `Breaker.ParseRetryAfterAt` | internal/spam/typesafe.go:233-255 | the delay a Retry-After header asks for, in seconds or as a date, cut to between nothing and five minutes; nothing if unreadable |
| `Breaker.TypeSafeClient.Acquire` | internal/spam/typesafe.go:257-289 | one admission decision, all fields accounted for: blocked, cooling down, with a probe out, full or over the rate nothing is admitted, and each refusal names its reason |
| `Breaker.TypeSafeClient.Complete` | internal/spam/typesafe.go:291-336 | one completion, all fields accounted for: which errors block, which start or prolong a cooldown, and what a success resets |
| `BreakerRuns.AlwaysSound` | internal/spam/typesafe.go:257-336 | in every reachable state inFlight counts the leases out, probe holds exactly while a probe of this generation is out, backoff is 0 exactly without cooldown and otherwise between one second and five minutes, and cooldown ends within five minutes of the last completion |
| `BreakerRuns.FromTheStart` | internal/spam/typesafe.go:100-108 | a fresh client satisfies this, and so does everything it reaches |
| `BreakerRuns.ProbeIsAlone` | internal/spam/typesafe.go:268-277 | while a probe is out no other request of its generation is admitted |
| `BreakerRuns.StaleCompletion` | internal/spam/typesafe.go:291-300 | a completion from an older generation changes nothing but inFlight |
| `BreakerRuns.BlockedStaysBlocked` | internal/spam/typesafe.go:257-270 | once blocked nothing is admitted until the configuration changes |
| `BreakerRuns.ConfigErrorBlocks` | internal/spam/typesafe.go:291-336 | a completion of the current generation with an authentication, rejection or configuration error shuts its configuration out |
| `BreakerRuns.CooldownHolds` | internal/spam/typesafe.go:268-277 | while a cooldown runs and no probe succeeds no request of its configuration is admitted |
| `BreakerRuns.FailureKeepsOut` | internal/spam/typesafe.go:301-336 | after an overload, a failed probe or a third failure in a row no request of the configuration is admitted for one second and for the Retry-After, unless a probe already out succeeds |
| `BreakerRuns.SucceedingProbeReopens` | internal/spam/typesafe.go:301-310 | the success of a probe ends the cooldown at once |
| `BreakerRuns.FailuresAddUp` | internal/spam/typesafe.go:311-336 | failures are counted one by one; fewer than three in a row, none of them a probe or an overload, start no cooldown; each cooldown doubles the backoff, from one second up to five minutes, and never ends sooner than one already agreed |
| `BreakerRuns.SuccessForgets` | internal/spam/typesafe.go:301-310 | a success without a cooldown forgets the failures before it |
| `BreakerRuns.CapacityBound` | internal/spam/typesafe.go:278-280 | no more requests are ever out than the largest limit in use |
| `BreakerRuns.AdmitsAgain` | internal/spam/typesafe.go:257-289 | unblocked, with capacity, budget and no live probe, a request is admitted five minutes after the last completion |
| `BreakerRuns.AdmissionsSpread` | internal/spam/typesafe.go:278-286 | more than twice the per-minute limit of admissions span more than a minute |
| `BreakerRuns.RateBound` | internal/spam/typesafe.go:257-289 | no closed minute of any run holds more than twice the largest limit in use |
| `SpamRules.SameAsAlone` | internal/spam/mailbox_policy.go:29-131 | every mailbox gets the placement, reasons and decision it would get as sole recipient |
| `SpamRules.OrderFree` | internal/spam/mailbox_policy.go:35-55 | order and repetition of recipients make no difference |
| `SpamRules.AloneVerdict` | internal/spam/typesafe_policy.go:32-89 | a sole recipient's mailbox takes the message for Junk exactly when forced, over its score threshold, or caught by the evaluator in junk mode |
| `SpamRules.InForce` | internal/spam/mailbox_policy.go:40-50 | the thresholds in force: a mailbox's own where acceptable, else the configured ones, else 5 for junk |
| `SpamRules.AloneReasons` | internal/spam/mailbox_policy.go:98-131 | which probability, held against which threshold, puts a message in Junk and is named as which reason; in shadow mode it is only recorded |
| `SpamRules.AloneUndecided` | internal/spam/typesafe_policy.go:32-89 | in every other case the evaluator decides nothing, adds no reason, and the record's status says why |
| `SpamRules.FirstsAre` | internal/spam/mailbox_policy.go:36-39 | of mailboxes with one id the first is taken, whatever comes later |
| `SpamRules.StricterKeepsJunk` | internal/spam/mailbox_policy.go:40-53 | lower effective thresholds never take a message out of Junk |
| `SpamRules.LoweringKeepsJunk` | internal/spam/mailbox_policy.go:40-53 | lowering any one threshold, with or without a number stored before, keeps every message in Junk, for every number that can be stored |
| `SpamRules.ReplacingKeepsJunk` | internal/spam/mailbox_policy.go:40-53 | the same of replacing all overrides at once |
| `SpamRules.ParseSpamThresholds` | internal/api/spam_thresholds.go:9-38 | stores an override exactly if every key is known and every number is one the policy accepts |
| `SpamRules.SetJunkThreshold` | internal/spam/mailbox_policy.go:40-43 | for any number, storable or not, key present or absent: every message stays in Junk if and only if what is then in force is no higher |
| `SpamRules.SetSpamThreshold` | internal/spam/mailbox_policy.go:44-47 | the same for the spam threshold, in junk mode |
| `SpamRules.SetPhishingThreshold` | internal/spam/mailbox_policy.go:48-50 | the same for the phishing threshold |
| `SpamRules.RefusedNumberExample` | internal/spam/mailbox_policy.go:40-43 | a refused -1 in place of 1 would fall back to 5 and let a score of 3 out of Junk |
| `MailboxPolicy.AskedOnlyIfNeeded` | internal/spam/mailbox_policy.go:61-69 | the evaluator is asked at most once, never about a rejected message nor when every mailbox has it in Junk already |
| `MailboxPolicy.AskedExactly` | internal/spam/mailbox_policy.go:56-96 | the evaluator is asked exactly if it is enabled and there, extraction worked, the message is not rejected and some mailbox, or without any the message, is not in Junk; one result is reported in either mode |
| `MailboxPolicy.MessageReasons` | internal/spam/mailbox_policy.go:71-73 | the message-wide result holds the probabilities against the configured thresholds |
| `MailboxPolicy.MessageUndecided` | internal/spam/mailbox_policy.go:71-73 | an evaluator that was not asked, or gave no usable answer, adds nothing to the message |
| `MailboxPolicy.OutcomeOpened` | internal/spam/mailbox_policy.go:29-96 | the policy read off the opened mailboxes and one shared evaluation is the policy of the whole recipient list |
| `MailboxPolicy.Assessment.ApplyRecipientTypeSafe` | internal/spam/mailbox_policy.go:114-131 | a result that applies makes the message junk and appends typesafe_spam, then typesafe_phishing, each if its own probability reaches its own threshold |
| `MailboxPolicy.Checker.ApplyTypeSafe` | internal/spam/typesafe_policy.go:32-89 | one evaluation with every skip and error status; asks the evaluator exactly when it must |
| `MailboxPolicy.Checker.Open` | internal/spam/mailbox_policy.go:35-55 | the opening assessment and settings of the first mailbox with each id |
| `MailboxPolicy.Checker.Settle` | internal/spam/mailbox_policy.go:76-85 | the shared evaluation read for every mailbox, in any order, and whether any would be or was moved |
| `MailboxPolicy.Checker.ApplyMailboxPolicy` | internal/spam/mailbox_policy.go:29-96 | placements, message-wide result, evaluator calls and reports are those of the policy; the one result reported says whether any mailbox would be or was moved |
| `MimeTree.WalkExactly` | internal/mailparse/limits.go:61-96 | from any stack the walk yields the remaining depth-first leaves if and only if fewer than 256 entities are left to visit and depths and readers are sound, and otherwise a prefix and an error |
| `MimeTree.WalkMessage` | internal/mailparse/limits.go:41-96 | the same for a whole message, from its root |
| `MimeTree.Opened` | internal/mailparse/limits.go:69-93 | taking an entity accounts for it once, whether it is opened or yielded |
| `MimeWalk.BoundedReader.NextPart` | internal/mailparse/limits.go:61-96 | yields the next leaf of the walk or its ending, with never more than nine levels on the stack |
| `MimeWalk.Parse` | internal/mailparse/mailparse.go:56-83 | records the first 64 attachments by position; the text and html extracts are up to 8192 octets of the first inline part of their type that is not empty |
| `MimeWalk.FirstTextIs` | internal/mailparse/mailparse.go:76-83 | the extract is of the first inline part of its type that is not empty |
| `MimeWalk.ReadIs` | internal/mailparse/mailparse.go:56-64 | what is read of a walk is all up to the first part that comes with an error |
| `MimeWalk.ExtractAttachment` | internal/mailparse/mailparse.go:117-151 | the part at the index if it is an attachment; an inline part, an index past the end and a walk cut short are told apart |
| `MimeWalk.PartIndexSelects` | internal/mailparse/mailparse.go:65-149 | every recorded part index selects the very part recorded; below 64 records every selectable attachment has one |
| `MimeWalk.WholeMessageRead` | internal/mailparse/mailparse.go:56-83 | a message within the limits is read to its last leaf |
| `FoldHeader.FoldHeaderLine` | internal/mailparse/compose.go:50-70 | ends in bounds; its text unfolds to the header line, and each line but the last is cut at its last usable break before column 78, or failing that at its first |
| `FoldHeader.JoinedUnfolds` | internal/mailparse/compose.go:50-70 | folded lines joined by CRLF unfold to what they were cut from, and splitting the text gives them back |
| `FoldHeader.EveryLine` | internal/mailparse/compose.go:54-67 | no line is only white space, and a line over 78 octets has no white space from the first place it could be broken |
| `SpfRules.Eval` | internal/spam/spf.go:50-119 | for every DNS, cyclic or not: ends, uses at most 10 lookups, makes at most one resolver call and eleven for each lookup, and blames the budget only when used up |
| `SpfRules.DepthNeverDecides` | internal/spam/spf.go:50-53 | while depth is at most the lookups used, every depth limit of at least 10 gives the same outcome |
| `SpfRules.SelfInclude` | internal/spam/spf.go:76-86 | a record that begins by including itself ends in a permanent error with the budget used up |
| `SpfMeaning.QualifierMeans` | internal/spam/spf.go:159-170 | a match gives fail for -, softfail for ~, neutral for ? and pass for anything else |
| `SpfMeaning.HostMatchMeans` | internal/spam/spf.go:199-213 | a host matches by one of its first ten addresses |
| `SpfMeaning.MxMatchMeans` | internal/spam/spf.go:215-229 | a domain's mail hosts match by one of the first ten |
| `SpfMeaning.LookupMeans` | internal/spam/spf.go:121-142 | which record of a domain is its policy, and the verdict when there is none or more than one |
| `SpfMeaning.FirstMatchDecides` | internal/spam/spf.go:65-112 | in a record of all, ip4, ip6, a and mx terms within the budget the first term that matches decides, by its qualifier |
| `SpfMeaning.NoMatchRedirects` | internal/spam/spf.go:113-119 | if none matches the redirect decides, within the budget, and without one the verdict is neutral |
| `SpfMeaning.IncludeDecides` | internal/spam/spf.go:76-86 | an include matches exactly when the included domain's own check passes; an error there is the verdict |
| `SpfMeaning.FailNeedsMinus` | internal/spam/spf.go:50-119 | the verdict is fail, or softfail, only if some matching term, here or where redirects lead, carries - or ~ |
| `SpfChecker.SpfLookups.Take` | internal/spam/spf.go:27-33 | takes one lookup while there are any |
| `SpfChecker.Resolver.HostMatches` | internal/spam/spf.go:199-213 | whether one of the first ten addresses matches, in one call |
| `SpfChecker.Resolver.MxMatches` | internal/spam/spf.go:215-229 | whether one of the first ten hosts matches, asking no further than the first that does |
| `SpfChecker.EvalSpf` | internal/spam/spf.go:50-119 | verdict, reason, lookups used and calls made are those of the evaluation function |
| `SpfChecker.CheckSpf` | internal/spam/spf.go:35-48 | checks the sender's domain, or else the greeting's; the first matching term of a plain record decides by its qualifier, and fail and softfail need a matching - and ~; at most 10 lookups and 111 resolver calls, none without domain or address, and the same outcome under every depth limit of at least 10 |
| `TokenBucket.EvictionUnseenExactly` | internal/ratelimit/ratelimit.go:28-60 | no ordered sequence of calls tells a sweeping limiter from one that never evicts, if and only if 600 seconds refill the burst |
| `TokenBucket.EvictionUnseen` | internal/ratelimit/ratelimit.go:28-60 | if they do, sweeping changes no answer of any ordered calls |
| `TokenBucket.EvictionSeen` | internal/ratelimit/ratelimit.go:50-60 | if they do not, a key that spends its burst and comes back after a sweep is let through where it would not be |
| `TokenBucket.SpanBound` | internal/ratelimit/ratelimit.go:28-48 | any stretch of any run lets through no more of one key than the burst and what its span refills |
| `TokenBucket.EarnedAdmits` | internal/ratelimit/ratelimit.go:36-47 | a call is let through if, counted from any earlier call, its key was let through less often than a burst and than the time since refills; counted from the start a burst is there at once |
| `TokenBucket.TakesOne` | internal/ratelimit/ratelimit.go:41-47 | a call let through takes one token of its key; a refused one takes none, and neither takes any of another key |
| `TokenBucket.WaitingAdmits` | internal/ratelimit/ratelimit.go:36-47 | a key that waits until one token is refilled is let through |
| `TokenBucket.StepMirrors` | internal/ratelimit/ratelimit.go:28-60 | one call keeps a swept and an unswept limiter in agreement |
| `RateLimit.Limiter.Allow` | internal/ratelimit/ratelimit.go:28-48 | one answer and the buckets after it |
| `RateLimit.Limiter.SweepIdle` | internal/ratelimit/ratelimit.go:50-60 | drops exactly the buckets idle for more than 600 seconds, when a scan is due |

## Left out

- UIDs, counters and sizes are unbounded integers: the 32-bit UID space is not exhausted in the model.
- Each transaction, and each statement outside one, is one atomic step; SQL text, isolation levels and the differences between database backends are not modelled.
- UidOrder.RunLater: folder renaming and the label operations of the store (AddLabel, RemoveLabel, label UIDs) are not operations of the model.
- UidOrder.ApplyLater: the same operations are missing; of a purge, the statements about labels.
- ImapSession.Session.Select: resolving a mailbox name, and selecting a label, are not modelled.
- ImapSession.Session.LoadEntries: the load of a label view is not modelled; `ImapView.ResyncMirrors` holds of any load and label sessions are part of `ImapWorld.EveryExecution`, where nothing is claimed of their order.
- ImapSession.Session.ExpungeEntry: the branch for label views, which removes a label, is not modelled.
- ImapSession.Session.MoveOne: the three branches with a label as source or target are not modelled.
- ImapSession.Session.MoveCommand: resolving the target's name, moving between labels, and the pairing of UIDs in COPYUID are not modelled.
- ImapSession.Session.StoreCommand: others' transactions between its read and its writes are not modelled; what is stated is that grouping loses no message's flags.
- COPY, FETCH and SEARCH beyond the resync they make.
- Client-side flags through the expunge-only writer, which drops flag updates: flag claims are about the view, or about the real writer.
- Errors of response writers; a failing store call inside EXPUNGE and MOVE is modelled.
- MailStorage.MailStore.SoftDeleteMany: all its deletions carry one clock reading; its equality with one-at-a-time deletion asks that every mailbox named exists.
- OrphanCleanup.CleanupOrphanedMessages: database errors and the deletion of the stored blob after the commit are not modelled; message ids are not given out twice.
- OutboundRuns.AtMostOnce: delivery itself, the attempt records and the metrics are not modelled; the retry delay is a parameter.
- LeaseRuns.ExclusiveExactly: the work of an import or export is not modelled, only whether its worker is still uncancelled; ticks dropped during calls longer than an interval appear only in the counterexample's bound.
- SubmissionRuns.EveryWindow: the message, its attachment to the Sent folder and the quota check of the same transaction are not part of the send-limit model; the limits of a scope are fixed, and finished jobs are not pruned within the window.
- Job rows of webhook events: their final update does not check the lease owner, so the claims about outbound jobs are not made of them.
- MailboxPolicy.Checker.ApplyTypeSafe: of the TypeSafe record only status, probabilities, thresholds and decisions are modelled; text extraction and the evaluator are an oracle, configured thresholds are numbers.
- MimeWalk.Parse: of the metadata only attachments and text extracts are modelled; errors while reading a part's body, header decoding and charset conversion are not, and a tree stands for the bytes.
- FoldHeader.FoldHeaderLine: values that end in white space, for which no claim is made.
- SpfChecker.EvalSpf: splitting a record into terms and the arithmetic of address ranges are not modelled; the resolver answers a domain the same way throughout one evaluation, and the time limit is a function of the calls made.
- SpfChecker.CheckSpf: taking the domain out of an address and parsing the client's address are not modelled.
- RateLimit.Limiter.Allow: reals stand for floating-point numbers, and the clock does not go back.
- SMTP, HTTP, S3, TLS, DKIM and logging, the REST handlers but for the threshold parser, the login throttle, the concurrency gate, configuration validation, routing and rule matching, and NormalizeMessage are not part of this model.
