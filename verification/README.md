# Verified models of the mailbox pipeline

The modules model the parts of the mail pipeline that keep state, and prove what holds over every run of them.

- `BodySyncQueue`, `BodySyncProtocol`, `BodySyncDrain`, `BodySyncWorker`: the durable body-sync queue. Each SQL
  statement is a function on the table. A state machine interleaves any number of workers, crashed and late ones
  included, with stale resets and re-enqueues. A class holds the live table, and the worker loop runs on it while
  other workers act between its statements.
- `UidCursor`, `UidCursorProtocol`, `UidCursorEpoch`, `UidCursorReset`, `UidCursorRaces`, `UidFullSync`,
  `UidCursorAlone`: the stored UID
  cursor of a folder. A state machine interleaves full and incremental runs statement by statement over a mailbox that
  receives, expunges and renumbers messages. The loops of both syncs are methods on a folder's rows, and a run that nobody
  interrupts does what they do (`UidCursorAlone`).
- `JsonRepair`, `JsonStrings`, `JsonDocuments`: the scanner that escapes stray quotes in JSON strings, what the escapes
  mean, and which valid JSON it leaves alone.
- `FusionScores`, `RankFusion`: reciprocal rank fusion of two search results and its shortcuts, with the scores the code
  computes, rounded quotients and rounded sums.
- `Doubles`: rounding to 64-bit floating point, used by these two and by `RequestRate`.
- `SessionPool`, `SessionReuse`, `RequestRate`, `RateLimiter`: the two concurrency limiters. `RequestRate` computes the limiter's interval
  as the code does, by a 64-bit floating quotient.
- `HarnessRun`, `HarnessSteps`, `ReadinessWait`: the agent harness's run loop and its wait for a filled database.
- `FolderText`, `FolderWords`, `FolderPath`, `FolderTargets`, `FolderCasing`, `FolderCreation`: canonical folder paths, title case beyond ASCII, and
  creating folders on a server.
- `FrontMatter`: splitting an agent specification.

Environment: the database executes each statement atomically; the IMAP server keeps to sections 2.3.1.1 and 6.4.8 of
RFC 3501, reports UIDVALIDITY and UIDNEXT, and returns exactly the existing UIDs it is asked for; UIDs are below 2^31
because they are stored as i32; all workers use one configuration. What the provider, the tools, the clock, the folder
server and other callers do is arbitrary: a parameter, or a nondeterministic choice.

Where the code gives less than one might expect, the models state exactly what it gives:

- A UIDVALIDITY change is stored, and the cursor reset, by two statements. Within one UIDVALIDITY epoch no interleaving
  and no crash lets the cursor overtake the data (`CursorNeverOvertakesDataInOneEpoch`). At a reset, with the other runs
  about to read or just behind a fetch in the new epoch, it never does for the rest of the epoch if and only if the old
  cursor, and what the other runs have read of it, are safe in the new epoch (`ResetIsHarmlessIff`). Two runs where they are not, by a crash between the
  statements and by another run in flight, leave mail unread (`CrashDuringResetLosesMail`,
  `ResetBesideAnotherRunLosesMail`), and until the next renumbering nothing reads it (`PassedOverIsNeverImported`).
- An incremental sync records no missing Message-IDs, so the cursor a full sync starts from may lie above unrecorded
  ones. Full sync is therefore stated from the old cursor on (`SyncFolderFull`), and for the whole mailbox under what is
  known of the rows below it (`FullSyncAccountsForAll`, `FullSyncCoversAll`).
- A cursor past the mailbox's last UID, as a crash in a reset can leave it, is left alone by a full sync (`LeftAlone`,
  `SyncFolderFull`).
- Full sync needs two range fetches, not one, for an empty mailbox whose UIDVALIDITY changed (`SyncFolderFull`).
- A done queue row is final exactly when no worker still holds a claim of it (`DoneIsFinalIffUnheld`), and the entries
  marked done are those fetched exactly when no Message-ID of the batch has two UIDs (`MarksExactlyFetchedIff`).
- The rate limiter's interval is rounded twice, to a double and to a nanosecond. The configured rate is kept if and only
  if it is not rounded down (`RateIsKeptIff`). At 7 requests per minute it is, and an eighth fits into a minute
  (`SevenPerMinuteIsExceeded`); at a tie the error of the double decides (`TiesGoWithTheDouble`).
- A refresh of the cached mailbox list can be undone by a call that is still carrying an older copy of it
  (`RefreshIsCurrentIffNoOldCopyHeld`).
- The budget of tool calls is kept exactly when it leaves room for the unchecked prerequisites (`ToolBudgetKeptIff`).
- The branch of the readiness wait that returns a pending result is dead: the only agent that waits never waits in a
  chat task, and only chat tasks take the branch (`WaitForDbCompleteness`).
- Fused results with equal exact scores are ordered by the rounding of the doubles, and only those whose doubles are equal
  by id (`RoundingBreaksTie`). An id that dominates another never scores less (`DominatorNeverScoresLess`). It scores more
  in lists shorter than about 2^28 (`DominanceIsRespected`); at ranks near 2^30 the rounded sums can be equal
  (`FarSumsCollide`).
- The fusion shortcuts agree with the fusion exactly on lists without duplicates (`ShortcutAgreesIffDistinct`) of at most
  2^51 rows; on longer ones the rows must also rank as they are listed (`ShortcutAgreesIffRanked`).
- A folder target without any segment succeeds with the empty name, which no server lists (`EnsureFolderPathForFiling`).
- Not all valid JSON is left alone. Which is, is stated exactly by a walk over a document's strings with one bit
  (`ValidJsonKeptIff`); it is enough that no name and no array string ends in a colon
  (`JsonWithoutTrailingColonsIsKept`).
- Under title case, canonicalizing is idempotent on a path if and only if every character of the segments it keeps
  settles where it stands (`CanonicalizeIdempotentIff`). All ASCII does (`AsciiSettles`), a sharp s does not
  (`SharpSDoesNotSettle`).

## Model

| member | source | states |
|---|---|---|
| BodySyncQueue.ClaimTakesOldest | src/database/body_sync_queue.rs:165-187 | a claim returns pending and failed rows of the account that are due and not locked, as many as the limit allows, and passes over none that is due for longer, or for as long under a smaller id, than one it takes |
| BodySyncQueue.EnqueueKeepsKeysUnique | src/database/body_sync_queue.rs:126-139 | the upsert keeps one row per (account, folder, UID, UIDVALIDITY, Message-ID) |
| BodySyncQueue.EnqueueCoversItems | src/database/body_sync_queue.rs:126-139 | afterwards the queued keys are the old ones and the items, nothing else |
| BodySyncQueue.EnqueueIdempotent | src/database/body_sync_queue.rs:126-139 | enqueueing the same items again at the same instant changes nothing |
| BodySyncProtocol.AttemptBound | src/database/body_sync_queue.rs:165-187 | in every interleaving attempt_count <= max_attempts + number of revivals (stale resets and re-enqueues) of the row |
| BodySyncProtocol.RunKeepsInv | src/database/body_sync_queue.rs:105-335 | the counting argument: attempts already spent, distinct unspent snapshots and availability balance after every step |
| BodySyncProtocol.OneRowPerKey | schema.sql:374-392 | in every run the uniqueness constraint holds |
| BodySyncProtocol.ReportedAtMostOnce | src/body_sync_service.rs:483-508 | every claim is reported at most once, and one still held not at all |
| BodySyncProtocol.DoneIsFinalIffUnheld | src/database/body_sync_queue.rs:222-287 | a done row is done for ever if and only if no worker holds a claim of it |
| BodySyncProtocol.DoneUnlessRetried | src/database/body_sync_queue.rs:222-287 | while a row is not reported for another try, no statement takes it out of done |
| BodySyncProtocol.LockExpires | src/database/body_sync_queue.rs:310-336 | a processing row is freed by the reset of its account, failed, due at once and with its attempts kept, if and only if its lock is older than the configured age, at least a second; resets of other accounts leave it |
| BodySyncProtocol.BackoffIsWait | src/body_sync_service.rs:67-73 | under a valid configuration the delay after attempt k is min(max, base * 2^min(k-1,16)) |
| BodySyncProtocol.BackoffDoubles | src/body_sync_service.rs:67-73 | the first delay is the base, each further one twice the last up to the limit, and from the 17th on they stay the same |
| BodySyncProtocol.DeadLetterTiming | src/body_sync_service.rs:408-429 | a row nobody reset or re-enqueued is dead no earlier than the sum of the delays after attempts 1..max_attempts-1 since its first claim |
| BodySyncDrain.PotentialWhenIdle | src/body_sync_service.rs:514-560 | with no claim outstanding the potential is the sum over waiting rows of max(1, max_attempts - attempt_count) |
| BodySyncDrain.DrainClaimsBounded | src/body_sync_service.rs:514-560 | without enqueue or reset, all workers together claim no more than the potential, whatever is fetched and however time passes |
| BodySyncDrain.AttemptBoundIsReached | src/database/body_sync_queue.rs:165-335 | for every number of revivals some run reaches the attempt bound, so it is exact |
| BodySyncWorker.Queue.EnqueueItems | src/database/body_sync_queue.rs:105-146 | afterwards every item has a row; those not done are pending, due at once and unlocked with their attempts kept, new ones have no attempts, all other rows are as before; two equal keys make the statement fail as a whole and change nothing |
| BodySyncWorker.Queue.ClaimBatch | src/database/body_sync_queue.rs:159-206 | returns the claimed ids with the attempt number they were handed, whatever rows other claims have locked |
| BodySyncWorker.ClaimLocksRows | src/database/body_sync_queue.rs:173-187 | the rows handed out, and no others, are processing, locked now for the worker, one attempt further, which is the number handed out |
| BodySyncWorker.Queue.MarkDone | src/database/body_sync_queue.rs:214-240 | the named rows of the account are done, without lock and worker, with key, attempts and due time as before, whoever holds them; all other rows are unchanged; it counts them |
| BodySyncWorker.Queue.ScheduleRetry | src/body_sync_service.rs:408-440 | the row is dead if the claim's own attempt number has reached the maximum, else failed and due again after the delay for that number, unlocked either way; all other rows are unchanged; an error exactly when the row is not there |
| BodySyncWorker.Queue.ResetStaleProcessing | src/database/body_sync_queue.rs:310-336 | exactly the account's processing rows whose lock is older than the configured age become failed, due at once and unlocked; all other rows are unchanged |
| BodySyncWorker.MarksExactlyFetchedIff | src/body_sync_service.rs:466-482 | marking by Message-ID marks exactly the fetched entries, for every answer, if and only if no Message-ID of the batch has two UIDs |
| BodySyncWorker.ProcessClaimedFolderBatch | src/body_sync_service.rs:442-512 | with others acting in between, the entries whose Message-IDs were fetched are done in one report and counted, with rows that are done unless reported for another try since, and the others retried one by one, all of them if the fetch fails; afterwards none of the batch is owed |
| BodySyncWorker.RunBodySyncWorker | src/body_sync_service.rs:514-560 | the worker terminates; each of its own claims is reported exactly once and locks no row any longer, also if others claim, or left claims, under the same name (names are a process id and an index); if nobody does, this holds of every claim in its name, and no row stays in it; claims by all stay within the initial potential, it returns the number of its own claims reported done, whose rows are done at the end unless reported for another try since, and it stops when every due row of the account is locked by another claim |
| UidCursor.NewUidsExact | src/imap_client.rs:1723-1751 | despite the quirk of `n:*` exactly the existing UIDs above the cursor are new, with or without UIDNEXT |
| UidCursor.UpsertIsExact | src/database/body_sync_queue.rs:45-98 | a batch adds exactly the Message-IDs in it that are more than white space, and a queue row for each of their UIDs, and leaves everything else |
| UidCursorProtocol.RunKeepsInv | src/mailbox_sync_runtime.rs:92-322 | what the stored cursor, every run's start UID and every fetched batch may claim is kept by every statement of every run |
| UidCursorEpoch.CursorNeverOvertakesDataInOneEpoch | src/mailbox_sync_runtime.rs:92-322 | within one UIDVALIDITY epoch, after any interleaving of full and incremental runs with crashes and mailbox changes, the cursor is below UIDNEXT and every message up to it with a usable Message-ID is imported and queued; under full sync alone every other one is recorded missing |
| UidCursorProtocol.CursorNeverOvertakesData | src/mailbox_sync_runtime.rs:92-322 | the same across epochs, for runs in which every reset begins with no other run in flight and nothing but the mailbox changes until it ends |
| UidCursorReset.ResetIsHarmlessIff | src/mailbox_sync_runtime.rs:106-138 | with a reset pending and the other runs about to read or just behind a fetch in the new epoch, no continuation within the epoch, with any crashes, lets the cursor overtake the data if and only if everything importable up to the old cursor, and up to what each other run has read of it, is imported |
| UidCursorReset.RowsStayConsistent | src/database/body_sync_queue.rs:45-98 | in every run a body-queue row has its email row, as that condition presupposes |
| UidCursorReset.PassedOverIsNeverImported | src/mailbox_sync_runtime.rs:92-322 | a message that the cursor and every run are past, and that is not queued, is not imported by any continuation until the next renumbering |
| UidCursorRaces.CrashDuringResetLosesMail | src/mailbox_sync_runtime.rs:106-138 | a run in which a crash between storing UIDVALIDITY and resetting the cursor leaves a message unread below it |
| UidCursorRaces.ResetBesideAnotherRunLosesMail | src/mailbox_sync_runtime.rs:106-138 | a run in which a second full sync in flight writes its old cursor over the reset one |
| UidCursorRaces.LostMailIsNeverRead | src/mailbox_sync_runtime.rs:92-322 | the message those two runs leave below the cursor is not read by any continuation until the next renumbering |
| UidFullSync.ResolveMessageIds | src/mailbox_sync_runtime.rs:175-229 | two rounds of refetching, none without need, then exactly the messages without Message-ID are recorded missing and dropped |
| UidFullSync.BlockProgress | src/mailbox_sync_runtime.rs:17-22 | within three fetches a sync is past the 250-UID block it began, also when trailing messages are refetched |
| UidFullSync.ImportRange | src/mailbox_sync_runtime.rs:173-321 | one pass over a range with messages advances the cursor, extends what is imported or recorded missing up to it, and adds only rows of the mailbox's messages |
| UidFullSync.CheckValidity | src/mailbox_sync_runtime.rs:106-138 | the reported UIDVALIDITY is stored, and the cursor is reset exactly when another value was stored |
| UidFullSync.SyncFolderFull | src/mailbox_sync_runtime.rs:80-329 | on a stable mailbox it ends with the cursor exactly at the highest UID and everything from the old cursor (the beginning after a UIDVALIDITY change) up to it imported or recorded missing, with no row lost and none added that no message gives rise to, after at most 3 * ceil(n/250) + 1 fetches; exactly two for an empty mailbox whose UIDVALIDITY changed; with a cursor already past the last UID it makes one fetch and leaves the rows as they are |
| UidFullSync.FullSyncAccountsForAll | src/mailbox_sync_runtime.rs:80-329 | from rows that account for everything up to the old cursor it accounts for the whole mailbox |
| UidFullSync.FullSyncCoversAll | src/mailbox_sync_runtime.rs:80-329 | from rows that have everything importable up to the old cursor it has everything importable, whatever is not recorded as missing |
| UidFullSync.SyncFolderIncremental | src/mailbox_sync_runtime.rs:947-1069 | without new messages nothing changes; a renumbered folder loses its cursor and no row; else exactly the usable new messages are added, and the cursor is the highest UID of the mailbox if there are any and unchanged if there are none, whether or not the server reports UIDNEXT |
| UidFullSync.IncrementalCovers | src/mailbox_sync_runtime.rs:947-1069 | from rows that cover the mailbox up to the cursor they cover the whole mailbox, and the cursor is at or above every message with a usable Message-ID and never moves back |
| UidFullSync.SecondPassFindsNothing | src/mailbox_sync_runtime.rs:947-1069 | after a pass that imported something, a second pass over the same mailbox finds nothing new and leaves the rows alone |
| UidCursorAlone.IncrementalRunAlone | src/mailbox_sync_runtime.rs:947-1069 | an incremental run of the state machine that nobody interrupts is over after five statements and leaves exactly these rows |
| UidCursorAlone.FullRunAlone | src/mailbox_sync_runtime.rs:80-329 | a full run of the state machine that nobody interrupts comes to its end and leaves what the method promises: the cursor at the highest UID and everything from the old cursor up to it imported or recorded missing |
| JsonRepair.RepairJsonStringValues | src/ai_provider.rs:631-684 | the scanning loop writes the text the recursive form defines |
| JsonRepair.RepairOnlyInserts | src/ai_provider.rs:640-680 | on every string the output is the input with backslashes inserted directly before some quotes |
| JsonRepair.RepairIdempotent | src/ai_provider.rs:631-684 | repairing any string twice is repairing it once |
| JsonRepair.RepairableIff | src/ai_provider.rs:653-663 | the lookahead takes no quote of a raw text for the closing one, and nothing else in the text needs an escape, if and only if it holds no backslash and no control character and behind each quote, after white space, stands a character of the text other than a comma, a closing brace or bracket, a colon or a quote |
| JsonRepair.RepairUndoesMissingEscapes | src/ai_provider.rs:631-684 | a flat object printed with raw strings comes out escaped as section 7 of RFC 8259 asks if and only if every string in it is such a text |
| JsonStrings.EscapedReadsBack | src/ai_provider.rs:688-690 | the escaped form means the raw text: a reader of all the escapes of section 7 of RFC 8259 gives the text back, for all texts |
| JsonDocuments.ValidJsonKeptIff | src/ai_provider.rs:631-684 | every valid JSON text, nested as it may be and with free white space, is left alone if and only if the walk over its strings meets no damage |
| JsonDocuments.WaitsIff | src/ai_provider.rs:664-680 | the walk's bit is set by a name or array string that ends in a colon and then only spaces |
| JsonDocuments.BodyKept | src/ai_provider.rs:640-665 | an escaped member value comes through unchanged and the scanner is at rest behind it |
| JsonDocuments.JsonWithoutTrailingColonsIsKept | src/ai_provider.rs:631-684 | valid JSON in which no name and no array string ends in a colon is left alone |
| JsonDocuments.EscapedIsValid | src/ai_provider.rs:631-684 | all text escaped as section 7 of RFC 8259 asks can be such a string |
| JsonRepair.ArrayStringEndingInColonIsDamaged | src/ai_provider.rs:664-680 | valid JSON that the scanner changes |
| RankFusion.FuseHybridResults | src/mailbox_retrieval.rs:88-143 | the shortcuts cut one list at the limit; otherwise the result is the top of all ids, each once, with the semantic record preferred, by the score in doubles (each share a rounded quotient, each sum rounded in the code's order) and then by id |
| RankFusion.AddLeg | src/mailbox_retrieval.rs:111-123 | after a loop every id's score has grown by its shares of the list, one rounded addition per row, and records are kept or are the first with the id |
| RankFusion.FusionIsUnique | src/mailbox_retrieval.rs:103-142 | lists and limit determine the result, whatever order the hash maps are walked in |
| RankFusion.FusedInOrder | src/mailbox_retrieval.rs:125-131 | in the result scores do not rise, and ids with equal scores stand in lexicographic order: the earlier one is a proper prefix of the later or less at the first difference |
| RankFusion.ScoreIsOfAllRanks | src/mailbox_retrieval.rs:111-123 | the score of an id is the rounded sum of the worths of all its ranks, duplicates included, the semantic ones first, each in order |
| RankFusion.ChosenIsFirst | src/mailbox_retrieval.rs:111-123 | the record returned for an id is that of its first semantic row, and of its first lexical row only if it has no semantic one |
| RankFusion.RoundingBreaksTie | src/mailbox_retrieval.rs:111-131 | ids at ranks 15 and 10, and at 24 and 3, have equal exact scores, but the first stands before the second whatever the ids are |
| RankFusion.DominatorNeverScoresLess | src/mailbox_retrieval.rs:111-131 | with distinct ids per list, of any length, an id ranked at least as well in both lists and better in one never scores less, and comes second exactly when the scores are equal and its id is the larger |
| RankFusion.DominanceIsRespected | src/mailbox_retrieval.rs:111-131 | in lists of at most 2^28 - 61 rows with distinct ids the dominating id stands before the other, and is never omitted for it: no rounding hides a better rank |
| FusionScores.FarSumsCollide | src/mailbox_retrieval.rs:111-123 | beyond that bound it may: with the same lexical rank, semantic ranks 2^30 + 2 and 2^30 + 3 give one score |
| FusionScores.LexicalWeightIsNearest | src/mailbox_retrieval.rs:106 | the weight used is the double nearest to 0.9 |
| RankFusion.ShortcutAgreesIffRanked | src/mailbox_retrieval.rs:96-101 | a shortcut returns what the general fusion would, at every limit, if and only if the list has no duplicate ids and its rows rank as they are listed |
| RankFusion.ShortcutAgreesIffDistinct | src/mailbox_retrieval.rs:96-101 | in a list of at most 2^51 rows, if and only if it has no duplicate ids |
| RankFusion.HybridCandidateLimit | src/mailbox_retrieval.rs:83-86 | candidates are enough for the limit and at least min(4 * limit, 64), and beyond the limit at most 64 and four times it |
| SessionPool.PoolNeverOverflows | src/imap_client.rs:316-381 | in every run idle sessions plus checked-out or connecting ones stay within the pool size, and every permit comes back |
| SessionPool.IdleSessionsAreAsRecorded | src/imap_client.rs:342-381 | in every run no connection is in two hands, and what is recorded as selected on it is selected at the server |
| SessionPool.CommandsRunInSelectedMailbox | src/imap_client.rs:264-278 | after ensure_selected(m) the caller's connection has m selected until the caller selects something else, whatever other callers do |
| SessionPool.BorrowedCountIsExactIffNothingLost | src/imap_client.rs:316-340 | the borrowed counter is right if and only if no connect failed and no borrower was dropped, and never too low |
| SessionPool.RefreshIsCurrentIffNoOldCopyHeld | src/imap_client.rs:372-391 | invalidating the mailbox list lasts through all runs if and only if no call in progress carries an older copy, which it would write back |
| SessionPool.ActiveImapState.BorrowSession | src/imap_client.rs:316-332 | takes the most recently returned session off the stack, or has the caller connect if and only if there is none, and counts it |
| SessionPool.ActiveImapState.ReturnSession | src/imap_client.rs:334-340 | a successful call's session goes on top of the stack, a failed one's does not, and the counter falls by one but not below zero |
| SessionPool.ActiveImapState.Disconnect | src/imap_client.rs:393-400 | no idle session and no cached list remain, the counter stays |
| SessionPool.SessionStateShim.EnsureSelected | src/imap_client.rs:264-278 | selects only when needed, and on failure leaves the record of the selected mailbox alone |
| SessionReuse.CallSucceedsIffNothingFails | src/imap_client.rs:342-381 | a call gives back the session it borrowed, as successful if and only if none of its commands failed, whatever others do |
| SessionReuse.ReturnedIsBorrowedNext | src/imap_client.rs:316-340 | the next to borrow after a successful return gets exactly that session and record, and does not connect |
| SessionReuse.FailedIsNeverReused | src/imap_client.rs:334-340 | after a failed return no run ever hands that connection to anyone |
| SessionReuse.SessionsAreConserved | src/imap_client.rs:316-400 | in every run the connects that succeeded are the sessions idle, those in hand, and those given up by failed or dropped calls and by disconnects |
| SessionReuse.FreshListIsCached | src/imap_client.rs:372-375 | a call that listed the mailboxes leaves that list in the cache when it ends |
| SessionReuse.CachedListIsHandedOn | src/imap_client.rs:355-375 | a call begins with the cached list and writes back what it has, leaving the cache alone if that is nothing |
| RateLimiter.SpanOfGrants | src/provider_rate_limit.rs:39-57 | under every schedule of callers n grants span at least n - 1 intervals |
| RateLimiter.BoundIsExact | src/provider_rate_limit.rs:39-57 | no schedule puts more than R grants into a half-open window of width W if and only if R intervals fill it |
| RateLimiter.RateIsKeptIff | src/provider_rate_limit.rs:26-37 | the configured rate is kept in every half-open minute if and only if it divides a minute of nanoseconds, or the rest is more than half the rate, or it is half and the double quotient lies above the tie or on it with the even nanosecond above |
| RequestRate.IntervalIsNearest | src/provider_rate_limit.rs:30-32 | rounding to a double and then to a nanosecond gives the nearest nanosecond to the exact quotient for every rate, and at a tie the one the double's error selects |
| RateLimiter.TiesGoWithTheDouble | src/provider_rate_limit.rs:30-32 | at 102400 the tie goes down although the even nanosecond is above, at 307200 the other way about |
| RateLimiter.SevenPerMinuteIsExceeded | src/provider_rate_limit.rs:30-32 | 7 requests per minute is such a rate that is not kept |
| RateLimiter.OneMoreIsNeverExceeded | src/provider_rate_limit.rs:30-32 | up to about 244948 requests per minute the excess is at most one request |
| RateLimiter.RateLimiter.Check | src/provider_rate_limit.rs:41-50 | the locked part lets through exactly when next_allowed is reached, and else says how long to sleep |
| RateLimiter.RateLimiter.Acquire | src/provider_rate_limit.rs:39-57 | the loop is a run of attempts; a caller nobody overtakes in its first sleep is let through on waking |
| HarnessRun.AtMostOnePrerequisite | src/agent_harness/run_executor.rs:335-345 | exactly which inputs require the list, and which the count; never both, so at most one prerequisite runs |
| HarnessRun.RunWithCallback | src/agent_harness/run_executor.rs:1234-1588 | a run starts from the checkpointed or the initial messages with the prerequisite's result behind them, and for every sequence of answers of provider, tools and store ends in the step and the way EndsAt defines, with the calls it made |
| HarnessRun.RunSteps | src/agent_harness/run_executor.rs:1340-1588 | calls, transcript, tools used and checkpoints at the head of step k are functions of the answers |
| HarnessRun.TextStep | src/agent_harness/run_executor.rs:1467-1583 | an answer without tool call ends the run or adds one exchange; the two requests to call a required tool are dead code |
| HarnessSteps.ToolCallsAreMade | src/agent_harness/run_executor.rs:1387-1461 | a step whose response carries calls, or if it carries none has one written in its text, and that goes on, has made exactly these in order, counted them within the budget, and says back one paragraph a call headed by its name |
| HarnessSteps.ToolBudgetIsChecked | src/agent_harness/run_executor.rs:1399-1408 | such a step ends the run for its budget if and only if the calls do not fit into what is left of it |
| HarnessSteps.ToolFailureEnds | src/agent_harness/run_executor.rs:1410-1449 | within the budget it ends the run at the first call without a result, or if all have one when their number cannot be recorded, and goes on otherwise |
| HarnessSteps.TextsAreAnswered | src/agent_harness/run_executor.rs:1467-1583 | a text without call makes none, and what is said back is the scratchpad's answer, the correction of what is invalid, or the nudge when a required call is promised again |
| HarnessSteps.ValidTextFinishes | src/agent_harness/run_executor.rs:1484-1583 | the run finishes with a text if and only if it holds no call and no scratchpad request, is valid, does not promise a required call, and can be recorded |
| HarnessSteps.LimitsEnd | src/agent_harness/run_executor.rs:1340-1375 | a run that reaches a limit ends there, the limit on steps before that on model calls |
| HarnessSteps.CheckpointIff | src/agent_harness/run_executor.rs:1454-1482 | a checkpoint is saved behind exactly the tool and scratchpad steps on which one is due |
| HarnessRun.EndIsUnique | src/agent_harness/run_executor.rs:1340-1588 | the answers determine the step and the way a run ends |
| HarnessRun.TranscriptLength | src/agent_harness/run_executor.rs:1451-1452 | at the head of step k the transcript has base + 2k messages |
| HarnessRun.TranscriptShape | src/agent_harness/run_executor.rs:1451-1583 | exchange i of the transcript is the model's i-th text and the reply to it |
| HarnessRun.CheckpointsAreTranscripts | src/agent_harness/run_executor.rs:1454-1482 | each checkpoint holds the transcript at the head of the following step |
| HarnessRun.ToolBudgetKeptIff | src/agent_harness/run_executor.rs:1399-1408 | tool calls stay within the budget in all runs if and only if the prerequisites alone do |
| HarnessRun.ParsedSpecKeepsBudgets | src/agent_harness/agent_spec.rs:236-246 | with the clamps of a parsed specification a run makes no more than max_tool_calls tool calls and max_llm_calls model calls, whatever the answers |
| ReadinessWait.BacklogIffWorkToRequest | src/agent_harness/run_executor.rs:135-159 | there is a backlog exactly when some work is requested, and no type is requested twice |
| ReadinessWait.WorkIsForWhatIsMissing | src/agent_harness/run_executor.rs:135-159 | exactly which counters call for a full sync, for bodies, for analyses and for locations, and that they are asked for in this order |
| ReadinessWait.FromEnv | src/agent_harness/run_executor.rs:82-120 | the limits are the configured ones, raised to a second, 50 milliseconds, the first delay and one poll |
| ReadinessWait.NextSleep | src/agent_harness/run_executor.rs:1125-1133 | the first sleep is the configured one and each further one twice the last, up to the limit |
| ReadinessWait.StableForIsLongest | src/agent_harness/run_executor.rs:949-954 | stable_polls is the length of the longest suffix of polls with equal email counts |
| ReadinessWait.WaitedIsBounded | src/agent_harness/run_executor.rs:1041-1133 | at most ceil(max_wait / initial_backoff) polls go by without ending the wait, so one more is made at most |
| ReadinessWait.WaitForDbCompleteness | src/agent_harness/run_executor.rs:923-1135 | the wait terminates at the first poll that is ready, late or cannot be loaded, with the sleeps, the count of stable polls and the requested work determined by the polls; a pending result is never returned |
| ReadinessWait.ReadyIffStable | src/agent_harness/run_executor.rs:750-752 | a poll ends the wait if and only if it calls for no work and the last polls, as many as required, saw equal counts |
| ReadinessWait.EndIsUnique | src/agent_harness/run_executor.rs:942-1134 | the polls determine when and how the wait ends |
| FolderText.SanitizeFolderSegmentForImap | src/cli_commands/folder_location_cli.rs:74-87 | the loop computes the sanitized segment |
| FolderText.SanitizedIsTidy | src/cli_commands/folder_location_cli.rs:74-87 | its result is words of harmless characters with single spaces between them |
| FolderText.SanitizeIdempotent | src/cli_commands/folder_location_cli.rs:74-87 | sanitizing is idempotent on every string |
| FolderWords.SanitizeSeparates | src/cli_commands/folder_location_cli.rs:74-87 | white space, control characters and twelve hostile characters each separate the words of what is around them |
| FolderWords.AmpersandIsAnd | src/cli_commands/folder_location_cli.rs:78 | an ampersand puts the word And between them |
| FolderWords.PlainTextIsOneWord | src/cli_commands/folder_location_cli.rs:74-87 | a text with none of these is one word and stays as it is; with SanitizeIsItsWords these three determine the result on every string |
| FolderWords.SanitizeIsItsWords | src/cli_commands/folder_location_cli.rs:86 | the result is its words with single spaces between them |
| FolderWords.TitleCaseAt | src/cli_commands/folder_location_cli.rs:89-104 | in ASCII text letters at the start and behind a space, a hyphen or an underscore are in upper case, and all others in lower case |
| FolderText.ToTitleCase | src/cli_commands/folder_location_cli.rs:89-104 | the loop computes the title-cased text |
| FolderPath.NormalizeIdempotent | src/cli_commands/folder_location_cli.rs:18-33 | normalizing is idempotent, for all strings when case is preserved and for ASCII when title-cased |
| FolderCasing.NormalizeIdempotentIff | src/cli_commands/folder_location_cli.rs:18-33 | under title case and for every path it is idempotent if and only if every sanitized segment settles |
| FolderText.TitleCaseSettlesIff | src/cli_commands/folder_location_cli.rs:89-104 | title-casing twice is title-casing once if and only if every character settles where it stands |
| FolderPath.CanonicalForm | src/cli_commands/folder_location_cli.rs:35-71 | for every path the canonical path joins segments that are not empty, hold no delimiter, come back from splitting it and do not name a bare container |
| FolderTargets.NormalizeSeparates | src/cli_commands/folder_location_cli.rs:18-33 | the segments of a path are those of its two sides at any delimiter |
| FolderTargets.NormalizeOne | src/cli_commands/folder_location_cli.rs:18-33 | a path without delimiter is its sanitized and cased text, or nothing if that is empty |
| FolderTargets.ContainerGoesToGeneral | src/cli_commands/folder_location_cli.rs:47-66 | each of the eight bare containers, in any case, is filed under its General folder |
| FolderTargets.SecurityGoesToPersonal | src/cli_commands/folder_location_cli.rs:47-53 | Security, in any case, belongs under Personal, with Alerts when it stands alone |
| FolderTargets.UnderPersonal | src/cli_commands/folder_location_cli.rs:51-68 | the three bare containers under Personal are filed under their Alerts or General folder |
| FolderTargets.OthersStayNormal | src/cli_commands/folder_location_cli.rs:35-71 | every other path is canonical as it is normal |
| FolderTargets.BareIsRewritten | src/cli_commands/folder_location_cli.rs:35-71 | a bare path's canonical form joins what its segments are rewritten to |
| FolderPath.CanonicalizeIdempotent | src/cli_commands/folder_location_cli.rs:35-71 | canonicalizing is idempotent, for all strings when case is preserved and for ASCII when title-cased |
| FolderCasing.CanonicalizeIdempotentIff | src/cli_commands/folder_location_cli.rs:35-71 | under title case and for every path it is idempotent if and only if the segments that the canonical path keeps settle |
| FolderCasing.AsciiSettles | src/cli_commands/folder_location_cli.rs:89-104 | ASCII text settles |
| FolderCasing.CanonicalIsHarmless | src/cli_commands/folder_location_cli.rs:35-104 | for every path and both case policies no segment of the canonical path holds a hostile or control character or the delimiter |
| FolderPath.NoCaseVariants | src/cli_commands/folder_location_cli.rs:15-33 | under title case, any two paths that differ in ASCII case alone have one canonical path |
| FolderCasing.SharpSDoesNotSettle | src/cli_commands/folder_location_cli.rs:35-104 | the path of one sharp s is canonicalized to SS, and that to Ss |
| FolderCreation.EnsureSegment | src/cli_commands/folder_location_cli.rs:558-607 | one round keeps the prefix equal, case ignored, to the segments joined so far |
| FolderCreation.FindIsFirst | src/cli_commands/folder_location_cli.rs:452-459 | the folder taken for a name is the first listed with it, case ignored |
| FolderCreation.EnsureFolderPathForFiling | src/cli_commands/folder_location_cli.rs:522-609 | against any server, success names a listed selectable folder that is the target or the path of its segments; a server whose listings show the folders asked for always leads to success; a missing target is created first, listed targets are never created, and nothing else than prefixes of the path is |
| FolderCreation.EnsureCanonicalFolder | src/cli_commands/folder_location_cli.rs:690-761 | for every canonical target that is not empty, ASCII or not, success names that folder, listed and selectable |
| FrontMatter.SplitFrontmatter | src/agent_harness/agent_spec.rs:450-493 | the scan over positions computes the split defined on lines, with the right error otherwise |
| FrontMatter.FenceIff | src/agent_harness/agent_spec.rs:495-497 | a fence is three plus signs with nothing but carriage returns behind them |
| FrontMatter.PromptIsTrimmed | src/agent_harness/agent_spec.rs:470-485 | the prompt is what follows the second fence's line without the white space at both ends, all of it and nothing else |
| FrontMatter.SplittingInvertsComposing | src/agent_harness/agent_spec.rs:450-493 | splitting a composed specification gives its front matter unchanged and its trimmed prompt, with or without a newline behind the last fence |
| FrontMatter.SplittingDecomposes | src/agent_harness/agent_spec.rs:450-493 | every successful split decomposes the whole input into fence, front matter, fence and rest |
| FrontMatter.SplittingFailsIffNotComposed | src/agent_harness/agent_spec.rs:450-493 | splitting fails exactly on texts no well-formed parts compose |

## Left out

- SQL text, sockets, TLS, MIME and IMAP line parsing, provider and embedding calls, metrics and logging: libraries and I/O; only the state transitions are modelled.
- Columns `last_error` and `updated_at`, and the email columns beside the Message-ID: nothing modelled reads them. The trimming of Message-IDs inside the SQL function is not modelled.
- Database errors inside the worker loops: a statement that fails ends a worker with its claims outstanding, which the state machine covers as a worker that forgets its claims.
- The drain starts its workers as tasks: one worker is modelled as a method among arbitrary others, and all of them together as runs of the state machine.
- Re-enqueue while a worker runs: `RunBodySyncWorker` assumes none, as the bound it states is false otherwise; `AttemptBound` covers it.
- Servers that report no UIDVALIDITY: the folder's stored value then stays as it is; not modelled.
- Clearing the UID columns of email rows after a UIDVALIDITY change: the columns are not modelled.
- Emails deleted by hand, whose queue rows the database drops with them: not modelled.
- UidFullSync.SyncFolderFull: the mailbox does not change and Message-IDs are stable during the run, as termination needs; changing mailboxes are in the state machine.
- RankFusion.DominanceIsRespected: lists of at most 2^28 - 61 rows; beyond, the statement for equal scores is
  `DominatorNeverScoresLess`, and how far the bound could be raised is not stated.
- RankFusion.ShortcutAgreesIffDistinct: lists of at most 2^51 rows; `ShortcutAgreesIffRanked` has no bound.
- FusionScores: ranks from 2^53 on, which the code rounds before dividing; no list in memory is that long.
- RateLimiter.Acquire: the loop is followed for a given finite number of sleeps, since a caller overtaken for ever never returns; fairness of the mutex is not modelled.
- SessionPool: throttling between commands and the time to live of the cached list are left to chance (a cached list may or may not be used).
- HarnessRun: token counts, escalation, the run timeout and how input and response texts are recognised; the last are parameters. Step numbers restart when a run resumes, so nothing is stated about which checkpoint is the newest.
- FolderCasing: the Unicode case mappings are parameters; `Unicode` states what is used of them (ASCII as usual; a
  character of a word maps to plain characters of a word, each of which maps to one; no image holds the delimiter).
- UidCursorReset.ResetIsHarmlessIff: UIDs are not used up, so that mail can arrive; the other runs are about to read or
  have just fetched in the new epoch. For runs that fetched in the old epoch, or are further on, there is the sufficient
  condition of `CursorNeverOvertakesData` only; the former may themselves start a reset back.
- HarnessRun: errors before the first step other than of the prerequisite calls and their records (loading the
  checkpoint, building the messages) end the run there and are not modelled.
- Agent routing, keyword classifiers, tool schemas, configuration loading, confidence calibration, the core work coordinator, the API and the terminal interface: tables or easy arithmetic beside the rest.
