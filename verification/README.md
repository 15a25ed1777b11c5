# Verified core of the review system

A Dafny 4.11 model of the parts of this repository whose correctness is hard to see from the code: the line diff, the
durable review queue and its outbox, the collector's encoders and matchers, the projection of findings, and the
incremental repository index. `dafny verify dfyconfig.toml` checks everything.

Code that updates state in place is modelled by classes and loops, each method proved equal to a function on values. What
those functions do is stated a second time in other words: by lookups of single keys, by a parser or a reader of its own, by an
order or a condition on the inputs. The remaining properties are about every reachable state, or about every run.

| Files | What they model |
|---|---|
| EditScript, Myers | the greedy O(ND) search and its backtracking (`cli/src/diff.ts`) |
| Hunks, PatchText, UnifiedDiff | hunks, their text, a parser and an applier for it |
| QueueStore, RedisQueue | the Lua scripts of the queue as functions, and command by command as a class |
| QueueEffects | what each script does to one job, its indexes, its locks and its keys |
| QueueInvariant, QueueEvolution | what every script keeps, and the only ways a job's record can change |
| Outbox, OutboxProof, OutboxTheorems, OutboxLoss, OutboxCounterexample | workers that may stop between any two awaits, the store and the ledger, over all runs |
| MemoryQueue, MemoryEffects, MemoryHistory, MemoryCounterexample | the in-memory queue store as a class, what each operation does, runs on one clock, and what its acknowledgements settle |
| PathBytes, PathForm | the UTF-8 recognizer and the lossless path encoding, and what encoded paths look like |
| Jcs, JcsReader | canonical JSON, and a reader of JSON that shares nothing with it |
| Glob, IgnoreRules, IgnoreMeaning | ignore patterns as regular expressions, rule evaluation, and which paths a list of lines excludes |
| Walk, WalkExclusions | the pruning walk, what it captures and what it reports as excluded |
| ReviewJson | the scanner that finds a JSON object in a reply |
| FindingTrack, FindingLayers, FindingProjection | the life of a finding under review events, and the event loop as a class |
| FindingEffects, FindingResults | what each event does to a finding, and which findings are returned in which order |
| FindingOrder, FindingReplay | in which orders events may arrive, and what becomes of those that arrive before their finding |
| RepositoryIndex, IndexSelection | chunking and incremental updates, and which files an update selects, reuses and stores |
| AccessRegisters, IndexStore | the timestamped access registers of the index and of the ledger, and the in-memory index store as a class |
| Wrappers, JsonUnits | `Option`, and the code units of JSON syntax |

## Where the code falls short of what it is meant to do

Each of these has a lemma with a concrete input or run; the lemmas named beside it say exactly when the code is right.

- **The outbox can lose an event.** `acknowledgeTransitionScript` takes only the id from its caller
  (`src/lib/redis-review-queue-store.ts:136-162`). A worker that read a retry transition and was slow can acknowledge the
  completion that is pending by then. The job is complete before any `review.completed` is appended, and if the worker that
  staged it stops at that point, no continuation ever appends it (`OutboxCounterexample.EventsFirstFails`).
  `OutboxTheorems.SettleSafeExactly` gives the exact condition on an acknowledgement, `OutboxTheorems.OutboxHolds` the
  guarantee for all runs that meet it, and `OutboxLoss.RecordedYetExactly` says when a missing event can still arrive.
- **The in-memory acknowledgement stores the caller's record, not the pending one**
  (`src/lib/in-memory-review-queue-store.ts:97-106`). A pump that read the retry of the first attempt can acknowledge the
  completion of the second: the job is to be retried after its first attempt again, and the completion is gone
  (`MemoryCounterexample.CompletionUndone`). The pending outcome is settled exactly when the record carries the pending
  lease (`MemoryHistory.AcknowledgesItsLease`, `MemoryHistory.SettlesExactly`).
- **The in-memory store renews leases whose locks are gone** (`src/lib/in-memory-review-queue-store.ts:108-116`):
  `MemoryQueue.LateRenewalBreaksExclusion`, with the exact conditions in `RenewKeepsExactly` and `RenewExcludesExactly`.
- **Two creations that share a key can answer different jobs**, in both queue stores, when the key named another job already:
  `QueueEffects.SharedKeyTwoJobs`, with the exact condition in `SharedKeyExactly`. A single key always finds its job
  (`OneJobPerKey`).
- **Attempts can exceed `maxAttempts`**, because a claim does not compare them: `OutboxCounterexample.AttemptsExceedBound`
  for every bound below 1, and for no other (`OutboxTheorems.AttemptsBoundedExactly`).
- **Feedback that arrives before its finding** is applied before buffered state changes, whatever the order of the events
  (`FindingOrder.EarlyFeedbackLosesItsPlace`). Of an order of arrival, the result is that of the events in order, whatever
  they say, exactly when no state change came before a feedback (`FindingReplay.FirstReviewReplaysExactly`).
- **Nothing that arrived early is applied when a review of an old head reports the finding first**
  (`FindingOrder.EarlyDismissalIsLost`). What that loses is said by `FindingLayers.StaleCreationExactly` for signals and by
  `FindingReplay.StaleReviewReplaysExactly` for all feedback and state changes; it is harmless whatever they say exactly
  when there are none (`FindingReplay.StaleReviewLosesExactly`).
- **Events at one time without sequences** project differently in different arrival orders
  (`FindingOrder.TiesKeepArrivalOrder`). The sort is independent of arrival exactly when the comparison orders every two
  different events (`FindingOrder.OrderFreeExactly`). The comparison is not transitive when events with and without
  sequence share a time; then what the host's sort does is not specified, and the model stands for an insertion sort.
- **A file once cut short by the chunk budget stays short** when there is room again, as long as its blob does not change
  (`RepositoryIndex.CutFileStaysCut`, exact condition in `UpdateAgreesExactly`).
- **A repository's access depends on the order of operations**, in the scripts and in memory, because a restoration is
  refused while the installation is revoked (`AccessRegisters.RestoreDependsOnOrder`, exact condition in
  `RepositoryConvergesExactly`). An installation's access does not (`InstallationConverges`).
- **The ledger's access registers depend on arrival order in a tie** (`AccessRegisters.TieDependsOnOrder`), and only then
  (`LedgerConvergesExactly`).
- **Ignore patterns miss paths with line terminators**, because `.` does not match them (`Glob.LineTerminatorsHide`). All
  patterns mean the same at a path exactly when it has none (`Glob.CompilesExactly`); compiled patterns never match too
  much (`Glob.GlobCompiles`).
- **A path's text alone does not determine its bytes** (`PathBytes.PathTextIsAmbiguous`); with the flag it does.

Two deviations are harmless. A hunk that is closed before the end of the script keeps two trailing context lines, not three;
the patch is still exact. A lock outlives its lease or ends with it, since the lease counts from the worker's reading of the
clock. One is only noted: an escaped slash after a double star (`**\/`) is an ordinary separator here as in the code, where
git's matcher takes both together for a double star.

## Model

| member | source | states |
|---|---|---|
| EditScript.DistIsLowerBound | cli/src/diff.ts:41-75 | any script that turns the first x base lines into the first y new lines has at least as many insertions and deletions as the distance of (x, y), also where the grid is continued past its borders |
| EditScript.Bounds | cli/src/diff.ts:51-61 | the distance of (x, y) is between the two sides' difference and their sum, and has the parity of x - y |
| EditScript.DiagonalMonotone | cli/src/diff.ts:62-65 | along a diagonal the distance never falls, so one furthest point per diagonal describes a round |
| Myers.EntryIsReached | cli/src/diff.ts:55-61 | the point where a round enters a diagonal, taken from the row before by the code's comparison, is within d moves, even off the grid |
| Myers.OnlyMatchesAdvance | cli/src/diff.ts:62-66 | where matching stops, the next point of the diagonal is more than d moves away: the entry kept in the row is the furthest one |
| Myers.Overshoot | cli/src/diff.ts:67 | past both ends the distance exceeds the far corner's by exactly the overshoot, so a first stop cannot be past the corner |
| Myers.CornerNotReached | cli/src/diff.ts:51-75 | a round that reaches the far corner on no diagonal proves it is more than d moves away |
| Myers.Search | cli/src/diff.ts:43-76 | the search always stops, exactly at (n, m), with d equal to the distance; every stored row holds the furthest points; so the fallback after it is dead |
| Myers.Backtrack | cli/src/diff.ts:77-120 | backtracking over the stored rows gives a script from base to new with as many changes as the search counted |
| Myers.MyersDiff | cli/src/diff.ts:42-120 | the result turns a into b, and no script that does has fewer insertions plus deletions |
| Hunks.BuildHunks | cli/src/diff.ts:122-198 | the hunks are disjoint and in order, show every change, give true positions and counts, merge changes up to 2 * CONTEXT kept lines apart, and carry exactly the context the code is meant to leave |
| Hunks.ApplyBothWays | cli/src/diff.ts:122-198 | hunks that cover a script turn its source into its target at the header's line numbers, and reversed its target into its source |
| PatchText.HunksPrinted | cli/src/diff.ts:180-203 | parsing the text of hunks, with ranges of count 0 and 1 and lines without newline, gives the same hunks back |
| PatchText.PrintHunk | cli/src/diff.ts:180-192 | the loop over the body prints the text that the parser is proved to undo |
| UnifiedDiff.SplitLinesFlatten | cli/src/diff.ts:25-32 | splitting loses nothing, and every line is free of newlines up to its terminator |
| UnifiedDiff.TextOfScript | cli/src/diff.ts:16-18 | the text of covering hunks parses to them, applies both ways, and marks as many lines as the script changes |
| UnifiedDiff.UnifiedDiff | cli/src/diff.ts:11-19 | the patch is empty exactly for equal texts; parsed and applied to the base it gives the new text, in reverse the base; up to the line limit no edit script changes fewer lines; every change is shown in its context |
| RedisQueue.RedisReviewQueueStore.Create | src/lib/redis-review-queue-store.ts:10-44 | the script's commands, with aliases of vanished jobs dropped and the second lookup dead, make of the whole state what the specification says |
| QueueEffects.CreateAnswers | src/lib/redis-review-queue-store.ts:10-44 | a creation with a key of a stored job answers the job of the first such key and changes only aliases: keys that named nothing, or came before it, name that job from now on |
| QueueEffects.CreatesNew | src/lib/redis-review-queue-store.ts:10-44 | without such a key it makes the job, which waits for activation, and all its keys name it |
| QueueEffects.AliasStays | src/lib/redis-review-queue-store.ts:10-207 | no script makes a key name another job while its job is stored and the alias has not expired |
| QueueEffects.OneJobPerKey | src/lib/redis-review-queue-store.ts:20-30 | so a creation with a key that names a stored job answers that job |
| QueueEffects.SharedKeyExactly | src/lib/redis-review-queue-store.ts:10-44 | two creations that share a key answer one job if and only if the key did not name another job already |
| QueueEffects.SharedKeyTwoJobs | src/lib/redis-review-queue-store.ts:10-44 | three creations after which two keys of the third name different jobs |
| RedisQueue.RedisReviewQueueStore.Claim | src/lib/redis-review-queue-store.ts:82-123 | the loop over candidates takes the first whose two locks are both free, puts off the others and lets go of a lock taken in vain |
| QueueEffects.ClaimTakesFirstFree | src/lib/redis-review-queue-store.ts:82-123 | a claim answers the first candidate whose two locks nobody holds, whenever there is one, with its record, index entries and both locks; it puts off every candidate before it by five seconds, and touches no other job |
| QueueEffects.RepositoriesShareLock | src/lib/redis-review-queue-store.ts:98 | two jobs share a repository lock if and only if owner and name agree but for the case of ASCII letters |
| QueueEffects.AcknowledgeSettles | src/lib/redis-review-queue-store.ts:136-162 | an acknowledged job is as the pending transition says: scheduled for when it names if it is to be retried, otherwise in the terminal index under its end; both its locks are let go, and no others |
| QueueEffects.RenewExtends | src/lib/redis-review-queue-store.ts:193-207 | a renewal succeeds if and only if the lease is the running one and both locks are held, and extends exactly these |
| QueueInvariant.StageKeeps | src/lib/redis-review-queue-store.ts:125-134 | staging an outcome of the running attempt keeps the invariant of all jobs and all locks |
| QueueInvariant.AcknowledgeKeeps | src/lib/redis-review-queue-store.ts:136-162 | an acknowledgement of any id keeps it: the job is indexed as its new status demands, and no lock of another job is let go |
| RedisQueue.RedisReviewQueueStore.RecoverExpired | src/lib/redis-review-queue-store.ts:164-191 | the loop over the expired ids comes to the recovery the next row is about |
| QueueEffects.RecoveryStages | src/lib/redis-review-queue-store.ts:164-191 | every running job whose lease is over and for which nothing is pending gets a retry at once while attempts are left, and otherwise a failure, and leaves the active index; nothing else is staged and no record changes |
| QueueInvariant.RenewKeeps | src/lib/redis-review-queue-store.ts:193-207 | a renewal, whatever the new expiry, keeps it: a lease is never extended beyond its locks |
| RedisQueue.RedisReviewQueueStore.PruneTerminal | src/lib/redis-review-queue-store.ts:72-80 | forgets exactly the records and index entries of the ids replied |
| QueueEffects.PruneForgets | src/lib/redis-review-queue-store.ts:72-80 | exactly the ids replied are forgotten, in all three places |
| QueueInvariant.NextKeeps | src/lib/redis-review-queue-store.ts:10-207 | every script, record expiry and clock tick keeps the invariant: indexes fit statuses, a pending transition carries a running job's lease, a live lease owns both locks at least as long as it lasts |
| QueueInvariant.ClaimKeeps | src/lib/redis-review-queue-store.ts:82-123 | claiming keeps that invariant whatever the sorted set replies within its contract |
| QueueInvariant.RecoverKeeps | src/lib/redis-review-queue-store.ts:164-191 | recovery keeps it, for any number of expired leases |
| QueueInvariant.LiveLeasesAreExclusive | src/lib/redis-review-queue-store.ts:82-123 | under the invariant two live leases share neither installation nor repository |
| QueueEvolution.NextMoves | src/lib/redis-review-queue-store.ts:10-207 | the only ways one job's record and pending transition can change in one action, whatever else the action does |
| QueueEvolution.ClaimsOnce | src/lib/redis-review-queue-store.ts:82-123 | one claim changes at most one job |
| QueueEvolution.FinishedStays | src/lib/redis-review-queue-store.ts:56-207 | a finished record is not changed by any action, only forgotten |
| QueueEvolution.PendingStays | src/lib/redis-review-queue-store.ts:125-191 | a pending transition disappears only by acknowledgement of its id |
| OutboxTheorems.ReachableInv | src/lib/review-queue.ts:121-250 | over every interleaving of workers, crashes, recovery, pruning and ticks the system invariant holds, histories of leases, outcomes and events included |
| OutboxTheorems.NoTwoLiveLeases | src/lib/review-queue.ts:153-183 | in every reachable state no two live leases share an installation or a repository |
| OutboxTheorems.NoJobStranded | src/lib/review-queue.ts:144-238 | in every reachable state an unfinished job is in an index some worker looks at, and its attempts are within the larger of 1 and maxAttempts |
| OutboxTheorems.AttemptsBoundedExactly | src/lib/redis-review-queue-store.ts:82-123 | in every reachable state a claimed job is within maxAttempts if and only if maxAttempts is at least 1 |
| OutboxTheorems.NeverResurrected | src/lib/review-queue.ts:144-238 | a finished job's record never changes again, and a forgotten id never comes back |
| OutboxTheorems.StagesOncePerRun | src/lib/review-queue.ts:206-224 | a lease stages at most one transition: staging succeeds only for a run without outcome |
| OutboxTheorems.OneTerminalEvent | src/lib/review-event-recorder.ts:194-243 | in every reachable state no job has both a completed and a failed event, nor two completed ones |
| OutboxTheorems.EventsAreTrue | src/lib/review-event-recorder.ts:194-243 | in every reachable state the run that an event names ended as the event says |
| OutboxTheorems.ReplayIsHarmless | src/lib/review-event-ledger.ts:127-139 | recording a transition whose event is already in the ledger appends nothing and is no conflict |
| OutboxTheorems.PendingUntilSettled | src/lib/review-queue.ts:155-164 | a staged transition is removed only when a worker acknowledges its id |
| OutboxTheorems.SettleSafeExactly | src/lib/redis-review-queue-store.ts:136-162 | an acknowledgement is safe whatever the ledger holds exactly when what is pending goes back to the queue or still carries the lease the worker read |
| OutboxTheorems.OutboxHolds | src/lib/review-queue.ts:153-237 | over every run whose acknowledgements meet that condition, a job that ended after running has the event of its end in the ledger, or the ledger refused it |
| OutboxLoss.RecordedYetExactly | src/lib/review-queue.ts:153-237 | once a job has ended, an unrecorded event of one of its runs is recorded in some continuation if and only if some worker has read the transition and is yet to record it |
| OutboxLoss.LostStays | src/lib/review-queue.ts:153-237 | an event that nobody is yet to record is recorded in no continuation |
| OutboxCounterexample.EventsFirstFails | src/lib/review-queue.ts:153-237 | a reachable state in which a completed job has no event of its end, and after which no continuation records it |
| OutboxCounterexample.AttemptsExceedBound | src/lib/redis-review-queue-store.ts:82-123 | for every maxAttempts below 1 a reachable state in which the job has been claimed all the same |
| MemoryQueue.InMemoryReviewQueueStore.Create | src/lib/in-memory-review-queue-store.ts:13-29 | the loops over aliases make of the whole state what the specification says |
| MemoryEffects.CreateAnswers | src/lib/in-memory-review-queue-store.ts:13-29 | the same of the in-memory store: the first key of a stored job decides, and only what keys name changes |
| MemoryQueue.InMemoryReviewQueueStore.Claim | src/lib/in-memory-review-queue-store.ts:57-84 | drops expired locks, then leases the first candidate by availability and age whose scopes are both free |
| MemoryEffects.ClaimTakesEarliest | src/lib/in-memory-review-queue-store.ts:57-84 | a claim answers a waiting job with free scopes whenever there is one, the one available first, of these the oldest, of these the first stored; it holds both scopes as long as its lease lasts, and every other lock in force stays |
| MemoryQueue.InMemoryReviewQueueStore.RecoverExpired | src/lib/in-memory-review-queue-store.ts:118-133 | stages a recovery for every expired lease without pending transition |
| MemoryEffects.RecoveryStages | src/lib/in-memory-review-queue-store.ts:118-133 | every running job whose lease is over and for which nothing is pending gets a retry at once while attempts are left, and otherwise a failure; nothing else changes |
| MemoryEffects.PruneForgets | src/lib/in-memory-review-queue-store.ts:140-150 | pruning forgets the first stored of the jobs that ended no later than asked, as many as asked, and nothing else |
| MemoryEffects.ReachedIsListed | src/lib/in-memory-review-queue-store.ts:6-150 | in every run each stored job is listed once, in the order in which jobs were first stored |
| MemoryQueue.TimelyRunsExclude | src/lib/in-memory-review-queue-store.ts:57-116 | in every run whose renewals come while the job owns its locks, live leases exclude each other at all times |
| MemoryQueue.ExclusiveFromEmpty | src/lib/in-memory-review-queue-store.ts:57-116 | so they do in every such run of a new store |
| MemoryQueue.RenewKeepsExactly | src/lib/in-memory-review-queue-store.ts:108-116 | a renewal keeps the lock invariant if and only if the job still owns both locks or the new expiry is past |
| MemoryQueue.RenewExcludesExactly | src/lib/in-memory-review-queue-store.ts:108-116 | right after a renewal leases exclude each other if and only if no other live job holds a lock the job needs |
| MemoryQueue.LateRenewalBreaksExclusion | src/lib/in-memory-review-queue-store.ts:108-116 | a run of the store that ends with two live leases of one installation |
| MemoryHistory.AcknowledgesItsLease | src/lib/in-memory-review-queue-store.ts:86-106 | over every run whose acknowledgements bring records that were staged, the record brought is the pending one if and only if it carries the pending lease, and then the pending outcome is what the job becomes |
| MemoryHistory.SettlesExactly | src/lib/in-memory-review-queue-store.ts:97-106 | after any run in which they carried the pending lease, the next acknowledgement settles the pending outcome if and only if it does too; otherwise the attempts go back and the outcome is gone |
| MemoryCounterexample.CompletionUndone | src/lib/in-memory-review-queue-store.ts:97-106 | a run in which a completed second attempt is undone to a retry after the first |
| PathBytes.SequenceIsScalar | cli/src/pathbytes.ts:34-51 | what the recognizer accepts at a position is the encoding of a Unicode scalar value |
| PathBytes.ScalarIsSequence | cli/src/pathbytes.ts:34-51 | every encoding of a scalar value is accepted, in full, and stands for that value |
| PathBytes.AcceptsExactlyUtf8 | cli/src/pathbytes.ts:53-60 | bytes are accepted exactly when they encode some sequence of scalar values (section 4 of RFC 3629) |
| PathBytes.IsValidUtf8Bytes | cli/src/pathbytes.ts:53-60 | the loop decides that |
| PathBytes.EncodePathBytes | cli/src/pathbytes.ts:70-85 | the loop builds the encoding; the flag is set exactly for bytes that are not UTF-8 |
| PathBytes.DecodePathBytes | cli/src/pathbytes.ts:88-102 | the loop computes the decoding that the round trip is about |
| PathBytes.RoundTrip | cli/src/pathbytes.ts:62-102 | every byte string is recovered from its encoding and flag |
| PathBytes.EncodingIsInjective | cli/src/pathbytes.ts:70-85 | different byte strings have different (path, flag) |
| PathBytes.PathTextIsAmbiguous | cli/src/pathbytes.ts:70-85 | two byte strings with the same path text |
| PathBytes.EncodedIsWellFormed | cli/src/pathbytes.ts:70-85 | an encoded path is well-formed Unicode, whatever the bytes were |
| PathForm.EncodedForm | cli/src/pathbytes.ts:62-85 | bytes are cut into characters, wherever one begins, and stray bytes; without stray bytes the path is the characters, otherwise every stray byte and every percent sign is a percent sign with two upper-case digits |
| PathForm.OneCut | cli/src/pathbytes.ts:34-60 | there is only one such cut |
| PathForm.DecodedForm | cli/src/pathbytes.ts:88-102 | any text is decoded to the bytes of its escapes and the UTF-8 octets of its characters, unpaired surrogates as U+FFFD |
| PathBytes.EncodePathString | cli/src/pathbytes.ts:109-125 | the loop over code points encodes a string as its WTF-8 octets are encoded |
| PathBytes.StringIsItsBytes | cli/src/pathbytes.ts:109-125 | the encoder of strings and the encoder of bytes agree on every string, with lone surrogates or not |
| PathForm.WellFormedExactly | cli/src/pathbytes.ts:110 | a string is well-formed if and only if its surrogates are paired; then it passes through |
| PathBytes.StringEncodingIsInjective | cli/src/pathbytes.ts:109-125 | different strings have different (path, flag) |
| Jcs.CanonicalText | cli/src/payload.ts:68-118 | two values serialize alike exactly when they are equal up to member order and undefined members, at any depth; equal values are refused for the same reason |
| JcsReader.TextReadsBack | cli/src/payload.ts:68-118 | read by a reader written from sections 2 to 7 of RFC 8259, the text of any value gives the value back, up to member order and undefined members, at any depth; and the members of every object come in ascending order of UTF-16 code units |
| JcsReader.StringComesBack | cli/src/payload.ts:87 | any string, with lone surrogates or not, is read back unit by unit |
| JcsReader.NumberComesBack | cli/src/payload.ts:97 | a number is read back by its decimal digits |
| JcsReader.RefusedForReason | cli/src/payload.ts:73-117 | a value is refused only for a reason in itself or in something it holds |
| Jcs.SerializedIffPermitted | cli/src/payload.ts:72-118 | a value is serialized exactly when it has no null, no undefined outside an object, only natural safe integers and well-formed strings |
| Jcs.TextDecides | cli/src/payload.ts:72-111 | no text of a value is a proper prefix of another's followed by anything that may follow it |
| Jcs.WrittenSorted | cli/src/payload.ts:102-106 | members are written once each, in strictly ascending order of UTF-16 code units (section 3.2.3 of RFC 8785) |
| Jcs.EscapeDecides | cli/src/payload.ts:89 | the escapes of section 3.2.2.2 of RFC 8785 are told apart by their first units |
| Glob.GlobToRegex | cli/src/ignore.ts:98-155 | the loop over the pattern builds the pieces the semantics is about |
| Glob.GlobCompiles | cli/src/ignore.ts:98-155 | the compiled pattern accepts only paths that a segment-wise gitignore matcher accepts, anchored or not, and of paths without line terminators exactly those |
| Glob.CompilesExactly | cli/src/ignore.ts:98-155 | at a path every pattern, anchored or not, means what the matcher says if and only if the path has no line terminator |
| Glob.LineTerminatorsHide | cli/src/ignore.ts:122-153 | a path below a directory whose name has a carriage return, which the matcher accepts and the compiled pattern does not |
| Glob.PiecesAreTokenPieces | cli/src/ignore.ts:101-152 | reading the pattern unit by unit, with its look behind and ahead, comes to the same as reading its tokens |
| IgnoreRules.MatchesDirectly | cli/src/ignore.ts:200-209 | the loop decides by the last rule that applies and matches |
| IgnoreRules.IsIgnored | cli/src/ignore.ts:218-225 | ignored exactly when the path or a directory above it is excluded |
| IgnoreMeaning.IgnoredExactly | cli/src/ignore.ts:193-225 | for rules compiled from patterns without classes and names without line terminators: a path is ignored if and only if for it or a directory above it the last applicable line is not negated; a line applies below its directory, to directories only if it says so, where its pattern matches segment by segment |
| IgnoreRules.NeverReincluded | cli/src/ignore.ts:211-225 | nothing below an ignored directory is included again, whatever the rules say |
| IgnoreRules.OrderIsStable | cli/src/ignore.ts:177-187 | the order loses nothing, ascends in depth, and keeps the order of every directory's rules |
| IgnoreRules.SameRelevantSameIgnored | cli/src/ignore.ts:193-225 | only rules whose base is above the path matter to it and to the directories above it |
| Walk.Walker.Visit | cli/src/capture.ts:833-893 | the recursive walk appends to the shared lists exactly what the specification finds, in order |
| Walk.WalkIsFilter | cli/src/capture.ts:825-903 | on every tree the walk captures exactly what filtering all entries by isIgnored with the ordered rules of the whole tree, or of the directories it entered, would, apart from denied directories and nested repositories; entries whose names are not UTF-8 are subject to the directories above them only |
| WalkExclusions.ExclusionsAreFilter | cli/src/capture.ts:825-903 | on every tree the walk reports as excluded exactly the directories it does not enter and the links it cannot read, each with its reason, as judging every directory and link by itself would |
| ReviewJson.ExtractReviewJsonPayload | src/lib/openrouter-review-provider.ts:110-136 | the scanning loop returns the text up to the unit that closes the first brace, or reports that there is none |
| ReviewJson.NoObjectExactly | src/lib/openrouter-review-provider.ts:110-111 | no object is reported if and only if there is no opening brace |
| ReviewJson.ExtractsObject | src/lib/openrouter-review-provider.ts:110-136 | after a prefix without opening brace, the text of any JSON object is returned in full, whatever its strings contain and whatever follows |
| ReviewJson.ValuePasses | src/lib/openrouter-review-provider.ts:117-134 | inside an object, the scanner goes over the text of any JSON value and is where it was |
| FindingTrack.AlwaysInv | src/lib/finding-lifecycle.ts:40-158 | after any events a finding is dismissed while a signal is active and otherwise in its underlying state, and its history is not empty and ends in its state |
| FindingEffects.KnownHead | src/lib/finding-lifecycle.ts:80-108 | the known head is the last one the pull request moved to, or the live one once it was reviewed; the reviewed head is that of the last review that counts |
| FindingEffects.VanishedDecides | src/lib/finding-lifecycle.ts:110-115 | a finding a counted review no longer reports is superseded if another finding of the review names its key, and otherwise fixed, unless it was dismissed or superseded; the change is recorded with the review's time and head |
| FindingEffects.ReportedDecides | src/lib/finding-lifecycle.ts:116-138 | a finding it reports again is open, unless it was dismissed, and was seen last at this review |
| FindingEffects.ReportOverwrites | src/lib/finding-lifecycle.ts:117-136 | a report overwrites what it states of the finding; a key or a superseded key that it leaves out stays |
| FindingEffects.FirstReportOpens | src/lib/finding-lifecycle.ts:116-133 | a finding about which nothing came early is open from its first counted report on, with that as its history |
| FindingEffects.HeadMoveDecides | src/lib/finding-lifecycle.ts:80-88 | a move of the head makes open findings stale beneath their signals, and changes no other |
| FindingEffects.OldReviewDecides | src/lib/finding-lifecycle.ts:92-107 | a review of an old head makes findings it reports known as stale if they were not known, and changes no other |
| FindingEffects.FeedbackDecides | src/lib/finding-lifecycle.ts:17-22 | feedback without signal decides what is beneath exactly if it is a dismissal, a resolution or a reopening |
| FindingEffects.SignalDecides | src/lib/finding-lifecycle.ts:53-62 | a signal is added or removed, and what is beneath shows after the last |
| FindingEffects.StateChangeDecides | src/lib/finding-lifecycle.ts:67-74 | a state change decides what is beneath, unless a signal caused it |
| FindingEffects.FinishDecides | src/lib/finding-lifecycle.ts:151-156 | at the end, findings that show as open are stale if the live head was not the last one reviewed |
| FindingLayers.SignalsOnlyCover | src/lib/finding-lifecycle.ts:48-74 | removing all dismissal signals from the stream leaves every underlying state as it is, and shows it |
| FindingLayers.SignalsAfter | src/lib/finding-lifecycle.ts:53-66 | the active signals are those the events leave active, buffered or not, unless such feedback is stuck in the buffer of a known finding |
| FindingLayers.StaleCreationExactly | src/lib/finding-lifecycle.ts:90-107 | a review of an old head that reports a finding first keeps its signals exactly when none is active yet |
| FindingOrder.OrderDoesNotMatter | src/lib/finding-lifecycle.ts:75-79 | all arrival orders of events that are comparable project to the same findings with the same histories |
| FindingOrder.OrderFreeExactly | src/lib/finding-lifecycle.ts:75-79 | all arrival orders sort alike if and only if of any two different events the comparison puts one first |
| FindingOrder.HistoriesOnlyGrow | src/lib/finding-lifecycle.ts:24-31 | more events only extend a history, and never change when a finding was first seen |
| FindingOrder.TiesKeepArrivalOrder | src/lib/finding-lifecycle.ts:75-79 | two arrival orders of events at one time without sequences, with different results |
| FindingOrder.EarlyFeedbackLosesItsPlace | src/lib/finding-lifecycle.ts:129-132 | a finding that is fixed although it was reopened later, because both events came before it |
| FindingReplay.FirstReviewReplaysExactly | src/lib/finding-lifecycle.ts:115-133 | of an order of arrival of early feedback and state changes: the first counted review makes of them what applying them one by one in that order would, whatever they say, if and only if no state change came before a feedback |
| FindingReplay.ReplayLayers | src/lib/finding-lifecycle.ts:48-74 | replayed in any order, the last event that sets a state decides the underlying state, and signals toggle in that order |
| FindingOrder.EarlyDismissalIsLost | src/lib/finding-lifecycle.ts:90-107 | a finding that is stale although an active signal dismisses it |
| FindingReplay.StaleReviewReplaysExactly | src/lib/finding-lifecycle.ts:90-107 | a review of an old head that reports a finding first leaves the state beneath and the signals as a replay of the early events would if and only if these leave no signal active and the last of them that sets a state sets it stale |
| FindingReplay.StaleReviewLosesExactly | src/lib/finding-lifecycle.ts:90-107 | of an order of arrival: it loses nothing, whatever the early events say, if and only if there were none |
| FindingProjection.ProjectFindingLifecycles | src/lib/finding-lifecycle.ts:40-159 | the loop over sorted events with its maps returns the projection that the tracks define, last seen first |
| FindingResults.ReadInOrder | src/lib/finding-lifecycle.ts:75-79 | events are read by time, at one time by sequence if all have one, and none is lost |
| FindingResults.ResultsAre | src/lib/finding-lifecycle.ts:40-159 | the result has exactly the findings that an authoritative review reported, as the events leave them, each once, last seen first, and of those seen last at one time the one known longest |
| FindingProjection.Projection.ReviewCompleted | src/lib/finding-lifecycle.ts:89-139 | heads, sweep and observation change every finding's track by exactly one step, and keep the invariant |
| FindingProjection.Projection.HeadChanged | src/lib/finding-lifecycle.ts:80-88 | every finding whose underlying state is open becomes stale beneath its signals, and no other changes |
| FindingProjection.Projection.ApplyOneFeedback | src/lib/finding-lifecycle.ts:53-66 | one finding's track changes as specified, and no other finding's |
| RepositoryIndex.ChunkSourceFile | src/lib/source-context.ts:56-68 | the loop builds the specified chunks |
| RepositoryIndex.ChunksOverlap | src/lib/source-context.ts:56-68 | chunks are exact excerpts, start a step apart, share the stated overlap and end with the file |
| RepositoryIndex.ChunksCoverFile | src/lib/source-context.ts:56-68 | the chunks put together are the file |
| RepositoryIndex.Update | src/lib/repository-index.ts:179-208 | reuse, chunking and the running chunk budget store the specified files |
| RepositoryIndex.UpdateIsFaithful | src/lib/repository-index.ts:186-200 | whatever was stored before, every stored file holds a non-empty prefix of its fresh chunks |
| RepositoryIndex.UpdateIsWithinBudgets | src/lib/repository-index.ts:187-201 | whatever was stored before, at most maxFiles listed files are selected, each within maxFileBytes and together within maxSourceBytes, and at most maxChunks chunks are stored in all |
| IndexSelection.SelectionIsGreedy | src/lib/source-context.ts:70-86 | of the first maxFiles source files that are not too large, exactly those are selected that still fit what the selected ones before them leave of the byte budget |
| IndexSelection.TakesIndexed | src/lib/repository-index.ts:186-194 | a selected file is taken from the latest snapshot if and only if that has one of its path and blob |
| IndexSelection.UpdateUsesBudget | src/lib/repository-index.ts:196-201 | of the chunks taken, as many are stored as the budget allows |
| RepositoryIndex.UpdateAgreesExactly | src/lib/repository-index.ts:186-200 | an update stores what indexing everything afresh would, exactly when no reused file is shorter than the budget leaves for it |
| RepositoryIndex.RunsAreFull | src/lib/repository-index.ts:179-208 | along any run of updates without overflow, every snapshot is the full index of its commit |
| RepositoryIndex.CutFileStaysCut | src/lib/repository-index.ts:186-200 | two commits after which the index is not the full one |
| AccessRegisters.ScriptsAgreeWithMemory | src/lib/repository-index.ts:124-165 | on the registers of a repository and of its installation together, scripts and in-memory store are one function with the same answers, refusals while the installation is revoked included |
| AccessRegisters.TimeNeverDecreases | src/lib/redis-repository-index-store.ts:32-100 | the time in a register never goes back, even when forced |
| AccessRegisters.LaterChangeWins | src/lib/redis-repository-index-store.ts:32-100 | without force an operation takes effect, and says so, unless the register is later or active at its time |
| AccessRegisters.ForceDecides | src/lib/redis-repository-index-store.ts:32-100 | with force the register is what was asked for, at the later of both times |
| AccessRegisters.LatestWins | src/lib/redis-repository-index-store.ts:32-100 | after any operations without force an installation's register holds the latest time, revoked unless a restoration has that time |
| AccessRegisters.InstallationConverges | src/lib/redis-repository-index-store.ts:32-100 | the same operations without force, in any order and number, end in the same register of the installation |
| AccessRegisters.RestoreDependsOnOrder | src/lib/redis-repository-index-store.ts:74-87 | four operations which end with the repository revoked, and in another order active |
| AccessRegisters.RepositoryConvergesExactly | src/lib/redis-repository-index-store.ts:32-100 | all reorderings of operations without force end in the same register of the repository if and only if none revokes the installation or every restoration of the repository is earlier than one of its revocations |
| AccessRegisters.TieDependsOnOrder | src/lib/review-event-ledger.ts:188-194 | two orders of a revocation and a restoration at one time, with different results |
| AccessRegisters.LedgerConvergesExactly | src/lib/review-event-ledger.ts:188-194 | all reorderings of operations without force end in the same register of the ledger if and only if the latest time is not tied |
| IndexStore.RegistersMove | src/lib/repository-index.ts:124-165 | an operation moves the registers of the scopes it concerns as the pair of registers moves, and no others |
| IndexStore.RunsMoveRegisters | src/lib/repository-index.ts:96-165 | after any run the registers of every scope are those after the operations on it or on its installation alone |
| IndexStore.RunKeepsIndex | src/lib/repository-index.ts:113-165 | in every run neither a revoked scope nor one of a revoked installation has a snapshot or a latest commit |
| IndexStore.RevokedHoldsNothing | src/lib/repository-index.ts:113-122 | after any run, put into such a scope stores nothing and says why |
| IndexStore.InMemoryRepositoryIndexStore.RevokeInstallationAccess | src/lib/repository-index.ts:137-145 | a revocation that takes effect drops the snapshots and the latest commit of every scope of the installation, and of no other; one that is refused changes nothing |
| IndexStore.RepositoryDropped | src/lib/repository-index.ts:124-135 | the same of a repository: its scope and no other |
| IndexStore.PutHolds | src/lib/repository-index.ts:113-122 | a snapshot that is stored is held under its commit, which is the latest; earlier commits and other scopes stay; one that is not changes nothing |

## Left out

- Git, file descriptors, prompts, GitHub, OpenRouter, QStash, Clerk, sandboxes, Postgres and the user interface: foreign code.
- Functions the language provides (`toString("utf8")`, `Array.sort`, `split`, `JSON.stringify` of strings, `RegExp`) are
  modelled by what their standards say; regular expressions as syntax trees with their languages, not as text.
- Redis is atomic scripts over maps and sorted sets. A lock past its expiry counts as absent; the expiry of records and of
  aliases is an action that may happen at any time. Workers read clocks that are not ahead of the server's.
- OutboxTheorems.ReachableInv: a worker may take any of its steps whenever it is idle, in any order, which allows more runs than `processNext`;
  the events of queueing and starting, and those `recordCompletionFindingStates` appends, are not modelled; event keys are
  values, not strings; what the ledger deletes later stays in its history.
- The ledger's paging, cursors and deletion, beyond its registers.
- OutboxTheorems.OutboxHolds: assumes of every acknowledgement the condition of `SettleSafeExactly`, because the scripts do
  not check it.
- UnifiedDiff.UnifiedDiff: minimal only up to the line limit, above which the code replaces the whole file.
- Glob.GlobToRegex: no character classes; the lines of an ignore file (comments, negation, trailing spaces) are taken as
  already parsed.
- Walk.WalkIsFilter: paths are lists of names, joined by slashes where a rule is tested; directory entries come sorted; which
  names are denied is part of the tree.
- Jcs.CanonicalText: which value an error message points to is not modelled; undefined stands for every unsupported type.
- ReviewJson.ExtractsObject: white space and code fences are already removed.
- FindingOrder.OrderDoesNotMatter: times are numbers; keys of findings come trimmed and in lower case; of a snapshot's other
  fields only the title is kept.
- RepositoryIndex.Update: files come in path order; symbols, deadlines, revocation and concurrency of reads are not modelled;
  a blob's lines are a function of path and blob.
- AccessRegisters.ScriptsAgreeWithMemory: times are natural numbers, and registers are values rather than text.
- IndexStore.RunKeepsIndex: the in-memory store only, a snapshot without its files; a scope is an installation id with the name
  of a repository in lower case; the scripts delete in batches after they revoke, which is not modelled.
- MemoryHistory.AcknowledgesItsLease: callers bring records that were staged, as `processNext` does.
- Payload finalization, the exclusion pipeline and the analytics accumulators, which would mostly add bookkeeping members.
- Policy merging, schemas, budgets, backoff, secret patterns and calendar formatting.
