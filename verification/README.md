# Verification model of Stellarator

Stellarator is a control plane for fine-tuning runs: a Rust supervisor polls the
training service (Tinker) and stores metrics, a Python backend creates runs, drives
chat agents and streams their frames, and a browser reads those streams. This project
models the parts of it where correctness depends on histories rather than on single
calls, and proves what they promise.

Every file is one module.

| file | part of the system |
|---|---|
| Text, Sets | strings with first occurrence, lines and joins; sizes of sets |
| SseSplit, SseFields, SseStream | event streams: cutting, line fields, whole streams under any chunking, printers and readers |
| Ingestion, IngestionRuns, Supervisor | metric ingestion: one applied poll; whole executions with failures, crashes and restarts; the retry, recovery and polling loops |
| JobTable, TrackedRuns | the supervisor's job map under track, untrack and task ends; the map and ingestion together |
| StreamStore, ChunkPersister, StreamResume, StreamEndToEnd | durable chat streams: driver and worker as an interleaving; the worker object; the resuming reader; all three composed |
| DoomLoop, ToolAssembly, ToolLoop, ToolRuns, ToolDriver | the agent tool loop: repetition detector, fragmented tool calls, rounds, whole runs by the replies, the driver object |
| Semaphores, SemaphorePool, SemaphoreBound | two-level connection slots as a step system; the object; the bound on the table |
| LruCache, LruReference | the TTL and LRU response cache against its history of calls, and against a reference that sees only the calls |
| Redactor, RedactorPieces, RedactorCut, RedactorParts | secret redaction: the text algorithm; where secrets cross; what it masks and keeps of any text; texts scrubbed part by part |
| LogRecords, LogLines, RedactingFilter | log records and their formatted lines; lines after a pass over their parts; the filter with its cache |
| Cipher, Rotation | secrets at rest under symbolic encryption; the rotation script |
| RunStatus, Reconcile, ReconcileExact, ReconcileRaises, ReconcileHistory | run statuses; the reconciliation pass; a pass in the terms of its inputs; passes that are lost; waits over whole histories |
| PreflightRules, RunGate | the preflight gate; creating and promoting runs, hand-off and rollback |
| OAuthState, OAuthRaces | one-shot OAuth states and their clean-up; overlapping callbacks |

Code that works by changing things is a class or a method with a loop, proved against a
function of its inputs or its old state; the theorems are about that function, and about
every sequence of steps. Answers of the outside world (the training service, the
supervisor, language models, the database, the token endpoint), clock readings and
randomness are arbitrary inputs. Encryption is symbolic: a token opens under the key it
was made with and under no other.

## Where the code falls short of what it says

For each of these the exact condition under which the promise holds is proved, and that it
fails: on an input, an execution, or a family of them.

- Ingestion: rows are write-once for all payloads exactly while the step in memory is
  not behind the table, which a failed recovery query breaks (`WriteOnceIffNotBehind`),
  and so does a second task of the run (`SecondTaskIsBehind`). A task can stop on a
  terminal status it failed to record (`TerminalStatusRecorded`,
  `TerminalStatusLost`).
- Job map: the exit of a task removes whatever entry its run has, so tracking a run again
  before its cancelled task has ended leads to two tasks (`StepKeepsMapLive`,
  `ImpatientCallerDoublesTask`).
- Event streams: the comment on `find_double_newline` says the LF search and the CR
  stripping together cover CRLF feeds; such a feed yields no event (`EventsIff`,
  `CrlfFeedYieldsNothing`).
- Resume: `seq > after_seq` is promised in full, but a row inserted between the replay and
  the MAX query is skipped, and a cursor ahead of the table brings old rows again
  (`DeliveredCompleteIff`, `RowBetweenQueriesIsLost`). The reader is promised to tail
  until `done`; it never ends when the stream ended in `error`, when the client already
  holds the `done`, or when the `done` came between the queries (`FinishesIff`).
- Tool loop: tool arguments that are valid JSON but neither an object, nor a list or
  string that can be probed for `run_id`, end the generator with a TypeError and no
  terminal frame (`DriveIsWellFormed`, `NumberArgumentsCrash`).
- Slots: the module text says the table is capped at 256 entries. The class keeps that in
  every execution only if no agent can hold a permit or one connection can exist
  (`BoundHoldsIff`). The one instance, with caps 16 and 64, is given agents by
  `backend/app/core/config.py:57-79`, which knows three names, so there the table stays
  far below (`KnownAgentsBoundTheTable`). With a per-agent cap of zero a waiter can
  lose its entry (`AlwaysOkIff`).
- Redaction: a secret that overlaps the marker, such as one beginning or ending with a
  star, can stay readable (`HiddenIffNoClash`). The longest-first order is there so that
  overlaps do not leak. The scrub keeps nothing of any secret in any text exactly for lists in
  which, wherever two secrets meet, the first one replaced leaves of the other only what
  consists of secrets (`MasksAllIff`); where none lies within another, that means that
  none overlap (`MasksAllIffNoneOverlap`). Otherwise a tail or a head is left
  (`OverlapLeaksTail`, `OverlapLeaksHead`).
- Log records: parts that the pass leaves alone, also because some other part cannot be
  rendered, stay as they are, and as each part is scrubbed by itself, a secret that only
  the formatted line holds, divided between message and arguments, is logged whole
  (`FilterHidesIff`, `CallersLineIff`, `SplitSecretShows`,
  `KeyAfterPrefixShows`). Every argument becomes a text, so a record with a number
  placeholder can no longer be formatted, even if it holds no secret (`SameLineIff`, `NumberLosesLine`).
- Reconciliation: per-run waits are meant to contain a failing job, but
  `backend/app/services/tinker.py:99` retries without re-raising, so an HTTP failure of a
  poll reaches the pass as tenacity's own exception, the `Raised` reply of the model. It
  ends the pass and loses every status change in it (`PassRaisesIff`,
  `RaiseLosesThePass`), starves all later rows (`LaterRunsStarve`) and, while it lasts,
  keeps the loop from committing anything (`OneBadRunFreezesTheTable`). Signals copied
  from a poll are kept only if some run's status changed in the same pass
  (`SignalsNeedAStatusChange`, `SignalsDropped`).
- Run creation: while a sandbox's hand-off is under way it can be cited and then rolled
  back, leaving a scale run without its sandbox (`RollbackDanglesIff`,
  `DanglingIsReachable`). A job whose handler dies before the row is committed is known to
  nobody (`JobsStayIff`, `OrphanIsReachable`). The same retry that spoils reconciliation
  repeats the POST that makes a job when its reply was lost, so that a living handler
  commits a row with the second job and nobody knows the first
  (`RetryOrphanIsReachable`), and a rejected request can have made three
  (`RejectedCanMakeJobs`); the error the handlers answer with 502 never reaches them
  (`CreateJob`).
- OAuth: the comment on the consume promises that contention is serialized, but the update
  is by row id: two callbacks that select before either commits both commit
  (`OnePerNonceIff`, `SecondCommitIff`).

Where code and documentation disagree the model follows the code: a running sandbox is
accepted although the text of `validate_sandbox_lineage` says completed;
`docs/agent-loop.md:162` asks for a citation, the schema does not; the module text of
`oauth_codex.py` describes an in-process set of nonces, the code a table; a line `data`
without a colon is ignored, where section 9.2.6 of the WHATWG HTML Living Standard gives
it an empty value.

## Model

| member | source | states |
|---|---|---|
| SseSplit.FindDoubleNewline | supervisor/src/tinker.rs:144-146 | The position returned is that of the first blank line; none is returned only if there is none. |
| SseSplit.DrainIsSplit | supervisor/src/tinker.rs:100-121 | Events and leftover concatenate to the buffer, every event ends at its first blank line, and the leftover holds none. |
| SseSplit.SplitIsUnique | supervisor/src/tinker.rs:111-112 | There is only one such split of any input, so the drain loop finds it. |
| SseSplit.DrainInTwoSteps | supervisor/src/tinker.rs:110-112 | Draining early and feeding the leftover together with the next chunk gives the events and leftover of one whole feed. |
| SseSplit.BlocksAreStrippedEvents | frontend/lib/chat/api.ts:69-70 | The browser's split yields the supervisor's events without their terminators, and the same leftover. |
| SseFields.ExtractData | supervisor/src/tinker.rs:158-183 | The line loop returns the joined payload of the event, or none when no line carries data. |
| SseFields.PrintedIsEvent | supervisor/src/tinker.rs:144-146 | Any printed frame, whatever comment, event, id and data lines it has, is exactly one event for the splitter. |
| SseFields.ReadPrinted | supervisor/src/tinker.rs:158-183 | Reading any printed frame gives its data lines joined by line feeds, each without one trailing CR; comments and other fields add nothing. |
| SseFields.LineReads | supervisor/src/tinker.rs:163-176 | A line adds a value if and only if, without one trailing CR, it is data: and the value, which does not start with a space, or data:, one space and the value. |
| SseFields.PayloadRoundTrip | supervisor/src/tinker.rs:148-183 | A payload printed as one data line per line of it is read back unchanged if and only if none of its lines ends in CR. |
| SseStream.ConsumeStream | supervisor/src/tinker.rs:100-124 | For every cut into chunks the task sends the parsed payloads of the complete events received before the first transport error, in order, until its receiver is gone. |
| SseStream.ReceivedIs | supervisor/src/tinker.rs:100-108 | What was received is all chunks up to the first transport error, one after the other. |
| SseStream.BlocksInTwoSteps | frontend/lib/chat/api.ts:68-70 | Keeping the tail and splitting it with the next chunk finds the blocks of the whole text. |
| SseStream.StreamOnce | frontend/lib/chat/api.ts:62-88 | For every cut into chunks the browser's callbacks are those of the blocks of the whole text, and its buffer is the unfinished rest. |
| SseStream.StreamSplitsIntoFrames | supervisor/src/tinker.rs:100-121 | A stream of printed frames is split into exactly those frames, with nothing left over. |
| SseStream.StreamRoundTrip | supervisor/src/tinker.rs:100-183 | Print, cut anywhere, split and read: the payloads arrive in order, none lost, merged or altered, until the receiver is gone. |
| SseStream.EventsIff | supervisor/src/tinker.rs:144-146 | A feed yields an event if and only if it holds two line feeds in a row. |
| SseStream.CrlfFeedYieldsNothing | supervisor/src/tinker.rs:139-143 | Any frames printed with CR LF line ends yield no event and no metric, however they are cut. |
| SseStream.BrowserReadsFrame | frontend/lib/chat/api.ts:72-87 | Of any printed frame the browser reads the first data line, trimmed; an empty one or [DONE] is the done event. |
| SseStream.SseTextIsFrame | backend/app/agents/openai_driver.py:135-137 | The text the drivers format, and the one the resume endpoint replays, is the printed form of a frame with event, data and id lines. |
| SseStream.AccumulatorReadsFrame | backend/app/api/chat.py:313-319 | The parser in `generate` recovers event type and payload of a driver frame if and only if the payload is one line. |
| Ingestion.LastStep | supervisor/src/db.rs:13-20 | The recovered step is the largest step stored for the run, and -1 when it has no rows. |
| Ingestion.UpsertKeys | supervisor/src/supervisor.rs:223-236 | The upserts of a batch create exactly the rows named by run, step and metric, and touch no other row. |
| Ingestion.UpsertHolds | supervisor/src/supervisor.rs:223-236 | Afterwards every pair of the batch is stored with its value. |
| Ingestion.UpsertAgain | supervisor/src/supervisor.rs:223-236 | Storing a batch that is already stored changes nothing. |
| Ingestion.CommitKeepsRows | supervisor/src/supervisor.rs:187-240 | A poll applied from a step that is not behind the table changes no stored row. |
| Ingestion.WriteOnceIffNotBehind | supervisor/src/supervisor.rs:121-130 | No payload at all can change a stored row if and only if the step in memory is not behind the table: true of the recovered step, false of the fallback -1 over a table with rows. |
| Ingestion.CommitMovesLast | supervisor/src/supervisor.rs:187-261 | Committing from MAX(step) moves the step in memory and MAX(step) to the same value, and no other run's. |
| Ingestion.CommitApplies | supervisor/src/supervisor.rs:162-261 | A committed poll makes the run row take over its status, GPU time, cost, first start and latest end. If its step, its own or the one after the step in memory, is beyond that step, exactly its entries that are numbers are stored under run, step and name and told in its order, and the step moves; otherwise no metric row changes, and a payload without numbers is told as a heartbeat. |
| IngestionRuns.RestartIsInvisible | supervisor/src/supervisor.rs:115-261 | Over every sequence of polls, failed transactions, crashes (also between commit and memory update) and restarts, the database is that of a supervisor that never stopped fed the committed polls, and every live task's step is MAX(step) or -1. |
| IngestionRuns.RestartIsInvisibleFromBoot | supervisor/src/supervisor.rs:115-261 | The same from a fresh boot over any database. |
| IngestionRuns.RowsNeverChange | supervisor/src/supervisor.rs:187-261 | Over every such sequence a committed metric row keeps its value for ever. |
| IngestionRuns.AnnouncedRowsAreCommitted | supervisor/src/supervisor.rs:238-261 | Every metric subscribers were told is a committed row with that value, and none was told twice, across failures and restarts. |
| IngestionRuns.NewRowsAreAnnounced | supervisor/src/supervisor.rs:238-261 | Unless the process dies between a commit and its announcement, every new row is announced with the value it has for good. |
| IngestionRuns.RowFollowsPolls | supervisor/src/supervisor.rs:203-220 | A run's row holds the status, cost and GPU time of its last committed poll, the first start and the last end any committed poll reported. |
| IngestionRuns.ReplayOverResult | supervisor/src/supervisor.rs:187-261 | A history replayed over a table that already holds what it wrote leaves the table as it is. |
| IngestionRuns.ReplayIsHarmless | supervisor/src/supervisor.rs:187-261 | Replaying a whole history from the step it began at, over the table it built, changes nothing; also from -1. |
| Supervisor.WithRetry | supervisor/src/db.rs:40-64 | At most six tries, repeated only while the database is busy, with sleeps of 25, 50, 100, 200 and 400 ms; it succeeds exactly when some try commits after busy answers only. |
| Supervisor.Store.GetLastStep | supervisor/src/db.rs:13-20 | The aggregate query returns MAX(step) of the run or -1. |
| Supervisor.Store.ApplyUpdate | supervisor/src/supervisor.rs:162-280 | One retried transaction, publication and the new step: run row, metric rows, announcements and step become what the payload's own fields say; when the transaction fails nothing is changed, published or remembered. |
| Supervisor.Store.Run | supervisor/src/supervisor.rs:115-160 | Recovery, then one turn per poll until cancelled, shut down, job missing or terminal status. |
| Supervisor.TaskIsExecution | supervisor/src/supervisor.rs:132-160 | Every run of a polling task is a sequence of the steps the restart results speak of, with the same database, announcements and end. |
| Supervisor.TaskEndsBy | supervisor/src/supervisor.rs:132-160 | A task goes on after failed polls and jobs that have not ended, and ends with the first other event, for that event's reason. |
| Supervisor.TerminalStatusRecorded | supervisor/src/supervisor.rs:151-158 | A task that stops on a terminal status has recorded a terminal one if and only if that last transaction committed or the row had one already. |
| Supervisor.TerminalStatusLost | supervisor/src/supervisor.rs:151-158 | A last transaction that never commits leaves the row as it was, and the task ends. |
| JobTable.StepKeepsMapLive | supervisor/src/supervisor.rs:85-113 | A step keeps the job map equal to the live uncancelled tasks, one per run, if and only if it does not insert over another insert and is not the end of a cancelled task whose run is tracked again. |
| JobTable.AlwaysLiveIffClean | supervisor/src/supervisor.rs:85-113 | The same for whole interleavings of track, untrack and task ends. |
| JobTable.PatientCallersKeepMapLive | supervisor/src/supervisor.rs:85-113 | With check and insert as one step and no run tracked again while a cancelled task of it is ending, the map always equals the live tasks. |
| JobTable.ImpatientCallerDoublesTask | supervisor/src/supervisor.rs:97-102 | Otherwise track, untrack, track, end of the first task, track leaves two tasks polling one run. |
| JobTable.RacingTracksDoubleTask | supervisor/src/supervisor.rs:85-94 | Two calls of track that both pass the check leave two live tasks of the run, and the map lists only the second. |
| JobTable.Jobs.Track | supervisor/src/supervisor.rs:85-104 | True exactly when the run was not tracked; then one new task and entry, nothing else. |
| JobTable.Jobs.Untrack | supervisor/src/supervisor.rs:106-113 | True exactly when the run was tracked; then its entry goes and its task is cancelled. |
| JobTable.Jobs.TaskExit | supervisor/src/supervisor.rs:97-102 | The end of a task removes it and whatever entry its run then has. |
| TrackedRuns.KeepsRowsIff | supervisor/src/supervisor.rs:187-240 | A poll changes no stored row if and only if it writes nothing, or every row it writes is new or has the value already. |
| TrackedRuns.SecondTaskIsBehind | supervisor/src/supervisor.rs:187-261 | After one of two tasks of a run has stored a poll, some poll of the other changes a stored row. |
| TrackedRuns.SamePollTwice | supervisor/src/supervisor.rs:223-236 | The same poll stored by both changes nothing. |
| TrackedRuns.PatientCallersGiveRuns | supervisor/src/supervisor.rs:85-113 | With patient callers every interleaving of calls, polls and task ends has at most one task per run and is one of the executions the restart results speak of. |
| TrackedRuns.PatientCallersKeepRows | supervisor/src/supervisor.rs:85-261 | So committed rows never change under patient callers. |
| StreamStore.StepKeepsInv | backend/app/agents/persistence.py:32-51 | Every step of driver and worker keeps: chunks are numbered in order, every chunk is settled, in flight or queued, the table holds settled chunks in order; and it only appends. |
| StreamStore.RowsArePrefix | backend/app/agents/persistence.py:75-129 | For every interleaving the table is an in-order prefix of what was emitted if no insert failed, and all of it once the worker has stopped. |
| StreamStore.RowsGrow | backend/app/agents/persistence.py:32-51 | The table and the emitted chunks only grow at their ends. |
| ChunkPersister.Persister.PutChunk | backend/app/agents/persistence.py:87-89 | Putting a chunk appends it to the queue. |
| ChunkPersister.Persister.Leave | backend/app/agents/persistence.py:75-77 | Leaving the context queues the stop mark. |
| ChunkPersister.Persister.Persist | backend/app/agents/persistence.py:32-51 | Insert or ignore; a failing insert is swallowed. |
| ChunkPersister.Persister.Drain | backend/app/agents/persistence.py:95-129 | The worker persists items in order until the stop mark, then what is left, then stops. |
| ChunkPersister.WorkWritesEverything | backend/app/agents/persistence.py:95-129 | A worker whose inserts commit leaves the table equal to everything emitted, and stops once the context was left. |
| StreamResume.SendNew | backend/app/api/chat.py:465-469 | The rows of one poll are sent up to and including a done, which ends the stream. |
| StreamResume.SendReplay | backend/app/api/chat.py:426-433 | All rows of the replay query are sent; the stream ends there if one was done. |
| StreamResume.Tail | backend/app/api/chat.py:413-469 | The generator sends exactly what the replay, MAX and poll queries determine. |
| StreamResume.DeliveredExactly | backend/app/api/chat.py:413-469 | For every timing of the queries the rows sent are those after the cursor in the replay's table, then those behind the last row the MAX query saw, up to the last poll's table. |
| StreamResume.DeliveredIncreases | backend/app/api/chat.py:413-469 | Sequence numbers strictly increase, so no row is sent twice. |
| StreamResume.DeliveredCompleteIff | backend/app/api/chat.py:419-448 | The client gets exactly the rows after its cursor if and only if MAX saw an empty table or exactly the rows the replay saw or the client holds; a row inserted between the two queries is lost, a cursor ahead of the table makes old rows come again. |
| StreamResume.ResumeOverExecution | backend/app/api/chat.py:413-469 | Over every execution of driver and worker and all moments of the queries numbers increase, and with both first queries on one table holding the cursor every later chunk is sent and no other. |
| StreamResume.FinishesIff | backend/app/api/chat.py:426-469 | A reader has ended at its last poll if and only if the table ends with done and that row was still to come: after the cursor in the table the replay saw, or behind the last row the MAX query saw. |
| StreamResume.NoDoneNeverFinishes | backend/app/api/chat.py:450-469 | So a stream whose table never holds done is polled for ever, |
| StreamResume.CursorOnDoneNeverFinishes | backend/app/api/chat.py:402-411 | and so is one whose client already holds the done, |
| StreamResume.DoneBetweenQueriesIsLost | backend/app/api/chat.py:419-448 | and one whose done arrives between the replay and the MAX query. |
| StreamResume.RowBetweenQueriesIsLost | backend/app/api/chat.py:419-448 | An execution of driver and worker whose first chunk is inserted between the two queries: it is never sent. |
| StreamEndToEnd.ChunksEndWithDone | backend/app/agents/openai_driver.py:231-371 | A driver's chunks are numbered 0, 1, 2, ... and hold done in last place exactly when the last reply neither broke off nor has a call that crashes the generator. |
| StreamEndToEnd.ClientGetsTheRest | backend/app/api/chat.py:413-469 | Driver, worker and reader together: a client resuming on one table is sent exactly the frames after the one it has. |
| StreamEndToEnd.ClientStreamEndsIff | backend/app/api/chat.py:413-469 | For every run of the driver, every interleaving and every moment of the queries, the client's stream ends if and only if the run ended well and the done was still to come. |
| DoomLoop.Detect | backend/app/agents/doom_loop.py:67-93 | The counting loop returns the note determined by the first call to reach the threshold in the window. |
| DoomLoop.DetectsExactly | backend/app/agents/doom_loop.py:67-93 | A note is given if and only if some (name, arguments) pair in the last window calls occurs at least threshold times there; it reports threshold, or one if that is less, and names the pair that gets there first. |
| ToolAssembly.Collect | backend/app/agents/openai_driver.py:295-312 | The delta loop of a chunk extends the calls assembled from all earlier chunks. |
| ToolAssembly.AssembledFromOwnFragments | backend/app/agents/openai_driver.py:295-312 | Call i's name and arguments are the in-order concatenations of the fragments with index i, its id their last non-empty one, and the list is one longer than the largest index. |
| ToolAssembly.InterleavingIsIrrelevant | backend/app/agents/openai_driver.py:295-312 | Streams with the same fragments per index give the same calls, however interleaved. |
| ToolLoop.ExecuteAnswers | backend/app/agents/openai_driver.py:333-361 | Executing the calls of a reply appends one tool message per call, same ids and order, emits call and result pairs, and crashes exactly when the arguments of some call cannot be probed for a run id. |
| ToolLoop.ResultsMatchCalls | backend/app/agents/openai_driver.py:333-361 | Each call's own result is in full in its tool message and, cut to 500 characters, in the frame right behind the frame of the call. |
| ToolLoop.StreamedIsSaid | backend/app/agents/openai_driver.py:291-293 | The deltas streamed to the client concatenate to the content of the assistant message. |
| ToolLoop.RoundKeepsRunOk | backend/app/agents/openai_driver.py:244-361 | One round keeps the conversation paired, the frames well formed and the requests guarded, and sends one request. |
| ToolLoop.DriveIsWellFormed | backend/app/agents/openai_driver.py:231-371 | For all upstream replies: at most MAX_ITER requests; in each every earlier call is answered once, in order, before anything else, and a doom-loop note is last exactly when the calls show the repetition; each tool_call frame is followed by its result; one done or error comes last, unless some call's arguments crash the generator. |
| ToolLoop.NumberArgumentsCrash | backend/app/agents/openai_driver.py:335-342 | A reply that calls a tool with the arguments 5 crashes the generator with no frame at all. |
| ToolLoop.BodyHasNoTerminal | backend/app/agents/openai_driver.py:231-371 | No frame but the last is a done or an error. |
| ToolRuns.ReplyIsItsChunks | backend/app/agents/openai_driver.py:284-312 | Text, frames and call fragments of a reply are those of its chunks, in order; a chunk without text gives no frame. |
| ToolRuns.NoCallsIff | backend/app/agents/openai_driver.py:321-323 | A reply asks for no call if and only if none of its chunks has a fragment of one. |
| ToolRuns.DriveEnds | backend/app/agents/openai_driver.py:244-371 | Every reply but the last has calls and no error. The stream ends in error, with its message, if and only if the last reply broke off with it; in no terminal frame if and only if a call of it crashes the generator; else in done, because the last reply asked for no call, or after MAX_ITER requests. |
| ToolRuns.DriveFollows | backend/app/agents/openai_driver.py:252-361 | The first request is the caller's messages; each later one is the one before, the reply's text and calls, and each call's own result, plus a note where one is due; the client reads all the replies' text. |
| ToolRuns.NotedIffRepeats | backend/app/agents/openai_driver.py:249-254 | A request ends in a doom-loop note if and only if among the last eight tool calls in it one was made three times. |
| ToolRuns.HistoryIsCalls | backend/app/agents/doom_loop.py:96-113 | The detector sees every tool call of the conversation, in order. |
| ToolRuns.SameArgsIff | backend/app/agents/doom_loop.py:96-113 | Two calls of one tool count as the same if and only if their arguments are the same JSON, or no JSON and the same text, for arguments not shaped as the detector wraps others. |
| ToolDriver.Driver.Emit | backend/app/agents/openai_driver.py:231-238 | Frames reach the persister under the numbers 0, 1, 2, ... |
| ToolDriver.Driver.Stream | backend/app/agents/openai_driver.py:275-312 | Streaming a reply emits its content as it comes and collects its calls. |
| ToolDriver.Driver.ExecuteCalls | backend/app/agents/openai_driver.py:333-361 | The execution loop does what the call-by-call function says. |
| ToolDriver.Driver.OneRound | backend/app/agents/openai_driver.py:244-361 | One iteration: note, request, stream, then error, answer or calls. |
| ToolDriver.Driver.Drive | backend/app/agents/openai_driver.py:215-371 | The whole loop, with its bound and its final done. |
| Semaphores.EvictKeepsInv | backend/app/core/semaphores.py:38-66 | Eviction removes no entry anybody holds or waits on and keeps every count. |
| Semaphores.StepKeepsInv | backend/app/core/semaphores.py:38-101 | Every acquire, cancellation (before or after the permit came) and release keeps: free global permits plus connections make the global cap, each entry's free permits plus holders make the agent cap, whoever holds or waits finds its semaphore under its agent's name, waiters exist only on empty semaphores, both maps have the same keys. |
| Semaphores.ExecutionsKeepInv | backend/app/core/semaphores.py:38-101 | The same in every state of every interleaving. |
| Semaphores.CapsAreKept | backend/app/core/semaphores.py:1-9 | No agent holds more than its cap and all together no more than the global cap. |
| Semaphores.UseIsNoted | backend/app/core/semaphores.py:68-101 | An acquire notes its time of use for its agent, a release for the agent of its connection; every other entry keeps semaphore and time. |
| Semaphores.StaysWithinTheHour | backend/app/core/semaphores.py:38-66 | Eviction leaves an entry in use, and one used within the hour while there are fewer than 256. |
| Semaphores.AlwaysOkIff | backend/app/core/semaphores.py:31-36 | That holds in all interleavings if and only if the per-agent cap is at least one or the global cap at most one. |
| Semaphores.BoundIsNotEnforced | backend/app/core/semaphores.py:57-66 | While the table is at its bound, nothing idle has expired and every least recently used entry is in use, eviction removes nothing and a new agent makes the table one larger. |
| SemaphoreBound.BoundHoldsIff | backend/app/core/semaphores.py:11-14 | No execution takes the table beyond 256 entries if and only if the per-agent cap is zero or the global cap at most one. |
| SemaphoreBound.GrowTo | backend/app/core/semaphores.py:57-66 | Otherwise one connection held while other agents come and go within the hour takes it to any size. |
| SemaphoreBound.KnownAgentsBoundTheTable | backend/app/core/semaphores.py:68-78 | The table never has more entries than there are agents. |
| SemaphorePool.Pool.OldestEntry | backend/app/core/semaphores.py:58-58 | The minimum by last use. |
| SemaphorePool.Pool.EvictLru | backend/app/core/semaphores.py:38-66 | Terminates; every stale entry goes; beyond those only idle entries, least recently used first, down to one below the bound. |
| SemaphorePool.Pool.SemaphoreFor | backend/app/core/semaphores.py:68-78 | After eviction the agent has an entry, its old one if it survived, used now. |
| SemaphorePool.Pool.Acquire | backend/app/core/semaphores.py:80-91 | Taking a global permit, then a permit of the agent's semaphore or a place in its queue. |
| SemaphorePool.Pool.CancelWait | backend/app/core/semaphores.py:86-91 | A cancelled wait gives the global permit back and nothing else. |
| SemaphorePool.Pool.CancelGrant | backend/app/core/semaphores.py:86-91 | A wait cancelled just after its permit came: the permit goes on to another waiter of that semaphore or back, the global one back. |
| SemaphorePool.Pool.Release | backend/app/core/semaphores.py:93-101 | The agent's permit goes to a waiter or back, the global one back; for an unknown agent only the global one. |
| LruCache.Cache.Get | backend/app/services/github.py:42-51 | A missing key gives nothing; an expired one gives nothing and goes; a fresh one gives its value and becomes newest. |
| LruCache.Cache.Set | backend/app/services/github.py:53-57 | The key becomes newest with value and time, and the oldest go until the size fits. |
| LruCache.HistoryKeepsInv | backend/app/services/github.py:34-57 | After every history of calls: the size is at most maxsize, each slot is what the key's latest set stored, the store is in order of last touch, and a missing key was never set, is too old, or was pushed out by maxsize others. |
| LruCache.GetMeaning | backend/app/services/github.py:42-51 | A lookup returns only the latest value set and only within its time to live; it misses such a value only after maxsize other keys were touched since this one was. |
| LruCache.ExactLru | backend/app/services/github.py:34-57 | If no lookup met an expired entry, a lookup hits if and only if the key was set, is fresh, and fewer than maxsize others were touched since. |
| LruReference.StoreMatches | backend/app/services/github.py:34-57 | After every history a key is in the cache if and only if, by the calls alone, it was set, no lookup has found it too old since, and at no later moment maxsize other keys were more recent; what is behind it in the order are the keys used since. |
| LruReference.GetExactly | backend/app/services/github.py:42-51 | So every lookup, also after lookups that met expired entries, answers the latest value set if the key is present by that rule and the value is within its time, and nothing otherwise. |
| Redactor.Scrub | backend/app/core/logging_filter.py:59-63 | The loop replaces the secrets one after the other in list order. |
| Redactor.ReplaceBringsNothing | backend/app/core/logging_filter.py:61-62 | Replacing one secret brings in no other one that does not clash with the marker, and leaves none of its own. |
| Redactor.ScrubHides | backend/app/core/logging_filter.py:59-63 | With secrets that do not clash with the marker, the scrubbed text contains none of them, and a second scrub changes nothing. |
| Redactor.CleanIsKept | backend/app/core/logging_filter.py:59-63 | A text without secrets is not changed. |
| Redactor.PlainIsSafe | backend/app/core/logging_filter.py:27-27 | A secret of at least eight characters, without a star and other than REDACTED, does not clash. |
| Redactor.HiddenIffNoClash | backend/app/core/logging_filter.py:60-62 | One secret is hidden in every text if and only if no overlap of it with the marker agrees. |
| Redactor.WholeSecret | backend/app/core/logging_filter.py:49-54 | With the longest first, a text that is a secret becomes the marker alone. |
| RedactorCut.ScrubMasksOccurrences | backend/app/core/logging_filter.py:49-63 | In any text whose secret occurrences are disjoint or nested, every outermost occurrence becomes the marker and all else stays, with the longest first. |
| RedactorPieces.AlwaysApartIff | backend/app/core/logging_filter.py:49-54 | The secrets of a list occur disjoint or nested in every text if and only if no proper end of one is a proper beginning of one. |
| RedactorCut.ScrubCut | backend/app/core/logging_filter.py:59-63 | The scrubbed text is the text cut at its first replacement, and again on either side, with the secret pieces masked: this says of every position whether it is kept. |
| RedactorCut.MaskedIsCovered | backend/app/core/logging_filter.py:59-63 | Only positions of secrets are masked. |
| RedactorCut.MasksAllIff | backend/app/core/logging_filter.py:49-63 | A list in any order leaves nothing of any secret in any text if and only if, wherever two secrets meet and one of them is replaced first, the rest of the other consists of secrets. |
| RedactorCut.NoneOverlapMasksAll | backend/app/core/logging_filter.py:49-54 | With the longest first it does so if no proper end of a secret is a proper beginning of one. |
| RedactorCut.MasksAllIffNoneOverlap | backend/app/core/logging_filter.py:49-63 | For a list in which no secret occurs within another one, in any order, it does so if and only if that holds. |
| RedactorCut.OverlapCanBeMasked | backend/app/core/logging_filter.py:49-54 | Otherwise an overlap need not leave anything: a longest-first list of three. |
| RedactorPieces.ShorterFirstLeaks | backend/app/core/logging_filter.py:49-49 | With the shorter first, any secret that starts with another one keeps its rest readable, unless the shorter one occurs there too. |
| RedactorCut.OverlapLeaksTail | backend/app/core/logging_filter.py:59-63 | Where two secrets of any list overlap or start alike and the first one is replaced first, the marker is followed by the scrubbed rest of the second; nothing is left exactly if that rest is covered by secrets and nothing of these is. |
| RedactorCut.OverlapLeaksHead | backend/app/core/logging_filter.py:59-63 | The same for the head of the first, when the second one is replaced first. |
| RedactingFilter.SortLongest | backend/app/core/logging_filter.py:50-54 | The list holds exactly the chosen strings, each once, longest first. |
| RedactingFilter.Filter.CurrentSecrets | backend/app/core/logging_filter.py:40-57 | The list holds, longest first, exactly the strings of eight characters or more in the provider's answer of less than five seconds ago; when the provider fails it is empty and nothing is cached. |
| RedactingFilter.ScrubEach | backend/app/core/logging_filter.py:76-78 | All arguments become scrubbed texts, or none is changed when one of them cannot be rendered. |
| RedactingFilter.Filter.Rewrite | backend/app/core/logging_filter.py:65-89 | The record is rewritten in place, part by part, up to the first part that cannot be rendered. |
| RedactorParts.LineCleanIff | backend/app/core/logging_filter.py:71-78 | A line whose parts are scrubbed one by one shows no secret if and only if every occurrence in the unscrubbed line is touched by what is masked within the parts. |
| RedactorParts.SurvivorStraddles | backend/app/core/logging_filter.py:71-78 | What is left whole runs across parts or lies in a part left alone. |
| LogLines.TokensAfter | backend/app/core/logging_filter.py:71-74 | When no secret touches a placeholder, scrubbing a message scrubs its literal runs and leaves its placeholders. |
| RedactingFilter.RenderedAfter | backend/app/core/logging_filter.py:65-89 | The line the formatter makes after the pass is the one of the scrubbed message and the given arguments, with the rewritten arguments scrubbed one by one. |
| RedactingFilter.FilterHidesIff | backend/app/core/logging_filter.py:65-89 | Neither a part of the record nor its formatted line shows a secret after the pass if and only if the parts the pass leaves alone show none (arguments that are neither dictionary nor tuple, all arguments when the message or one of them cannot be rendered, and the exception then or when it cannot be rendered itself) and no secret of the line runs across its parts untouched. |
| RedactingFilter.CallersLineIff | backend/app/core/logging_filter.py:65-89 | When no secret touches a placeholder of the message, the formatted line shows none if and only if every occurrence in the line of the record as the caller made it is touched by what is masked within one run or argument. |
| RedactingFilter.CallersLineIsRendered | backend/app/core/logging_filter.py:65-89 | That line is what the record would have been formatted to without the filter, when it shows its arguments as text. |
| RedactingFilter.WithinPartsIsHidden | backend/app/core/logging_filter.py:65-89 | So none is shown if each secret in it lies within one run or argument. |
| RedactingFilter.SplitSecretShows | backend/app/core/logging_filter.py:71-78 | A secret that begins in the message and ends as its argument is logged whole, wherever it is divided. |
| RedactingFilter.AdjacentArgsShow | backend/app/core/logging_filter.py:77-78 | So is one divided between two arguments side by side. |
| RedactingFilter.KeyAfterPrefixShows | backend/app/core/logging_filter.py:71-78 | An API key logged as its usual prefix and an argument, for example. |
| RedactingFilter.SameLineIff | backend/app/core/logging_filter.py:75-78 | With any secret configured, a record that holds none is formatted as before if and only if it has no arguments or only placeholders a text fits; otherwise it can no longer be formatted. |
| RedactingFilter.NumberLosesLine | backend/app/core/logging_filter.py:75-78 | A record with %d is lost, whatever secrets are configured. |
| RedactingFilter.FilterHides | backend/app/core/logging_filter.py:65-89 | A record whose parts can all be rewritten has no secret in any part afterwards; one is shown exactly if it runs across parts of the line. |
| RedactingFilter.LeftAloneLeaks | backend/app/core/logging_filter.py:65-89 | A secret in any part left alone stays readable. |
| RedactingFilter.Filter.Apply | backend/app/core/logging_filter.py:65-89 | A whole call: no string of eight characters or more that the provider named is left in any part of a record that can be rendered, and record and line hide the secrets in force exactly as far as stated above; after a provider failure it changes nothing. |
| RedactingFilter.OneBadArgumentLeaksTheRest | backend/app/core/logging_filter.py:67-88 | One argument of a tuple or dictionary that cannot be rendered, or such a message, leaves a secret in any other argument or in the exception readable. |
| Cipher.ReadsBack | backend/app/services/crypto.py:77-105 | Reading undoes writing if and only if the writing key is among those tried, or the text is empty. |
| Cipher.AnyKeyReadsTheSame | backend/app/services/crypto.py:70-74 | What is read does not depend on the order of the keys or on further keys. |
| Cipher.ReEncryptMeaning | backend/app/services/crypto.py:108-121 | Re-encryption succeeds exactly when the value can be read, and afterwards the first key alone reads the same. |
| Rotation.ReEncryptCell | backend/scripts/rotate_secret.py:82-105 | Fails exactly when neither key reads the value; changes it exactly when the old key does, to its plaintext under the new key. |
| Rotation.RowUpdates | backend/scripts/rotate_secret.py:169-177 | The updated columns of a row are exactly those written under the old key. |
| Rotation.Database.RotateTable | backend/scripts/rotate_secret.py:155-197 | One table: fails exactly on an unreadable column, counts the rows with something to rewrite, rewrites only the row of each key, one log line per row in a dry run. |
| Rotation.Database.Rotate | backend/scripts/rotate_secret.py:140-202 | Succeeds if and only if every column is readable; commits all tables or, on failure or in a dry run, changes nothing; the count of each table is the number of rows with a column under the old key, either way. |
| Rotation.RotationKeepsPlaintext | backend/scripts/rotate_secret.py:1-7 | After a committed rotation every non-empty column opens under the new key alone to what it opened to before, and reading with both keys gives the same before and after. |
| Rotation.SecondRunTouchesNothing | backend/scripts/rotate_secret.py:82-89 | A second run touches no row if and only if the keys differ or nothing was encrypted under the old one. |
| Rotation.RotatedIsReadable | backend/scripts/rotate_secret.py:82-105 | What was rotated can be rotated on from the new key to any other. |
| Rotation.ChainKeepsPlaintext | backend/app/services/crypto.py:9-19 | After any number of rotations the latest key alone reads what the first database held. |
| Reconcile.BackoffGrows | backend/app/services/reconcile.py:68-69 | Waits never shrink with further failures and never exceed 300 seconds. |
| Reconcile.WaitsGrow | backend/app/services/reconcile.py:225-230 | One failed poll adds one failure and sets the next attempt to its time plus a wait no shorter than that of one failure less. |
| ReconcileHistory.MapsAreStreaks | backend/app/services/reconcile.py:200-233 | For every history of passes, over tables anyone may change in between: a run's failure count is the number of service errors since its last good reply, its next attempt is the time of the last of them plus the wait for that count, and both dictionaries have the same runs. |
| ReconcileHistory.WaitingRunIsLeftAlone | backend/app/services/reconcile.py:203-211 | While a run waits, no pass changes its two entries. |
| ReconcileHistory.WaitsNeverShrink | backend/app/services/reconcile.py:68-69 | Until a good reply a failing run's waits never shrink, over any passes between, and none exceeds 300 seconds. |
| Reconcile.PassKeepsKeys | backend/app/services/reconcile.py:216-229 | Failure counts and next-attempt times exist for the same runs after every pass. |
| Reconcile.CoolingIsNotPolled | backend/app/services/reconcile.py:203-211 | Until its time comes a run is not polled: no reply of it could change anything. |
| Reconcile.Reconciler.ReconcileOnce | backend/app/services/reconcile.py:175-245 | The pass over the active runs, with nothing written when the supervisor cannot be asked, when a poll raises, or when no status changed. |
| Reconcile.Reconciler.Turn | backend/app/services/reconcile.py:287-317 | One turn of the loop: the pass, and a sleep that grows up to the cap after failed passes and is the base interval after a good one. |
| Reconcile.Reconciler.Serve | backend/app/services/reconcile.py:287-317 | The loop over any number of turns. |
| Reconcile.PassSettles | backend/app/services/reconcile.py:200-245 | When every poll answers with a known status and every call succeeds, each previously active run has its job's status, is tracked if it runs and untracked if it ended; other runs and rows are untouched. |
| Reconcile.RepeatIsQuiet | backend/app/services/reconcile.py:16-16 | A second pass against the same job statuses calls the supervisor for nothing and changes no row. |
| Reconcile.CallsExactly | backend/app/services/reconcile.py:235-241 | For all replies, the calls of a pass that ends are exactly: untrack each active run now ended and tracked, track each now running and untracked, under its own job. |
| Reconcile.SignalsNeedAStatusChange | backend/app/services/reconcile.py:158-161 | Copied signals reach the database if and only if the pass ends and some run's status changed in it. |
| Reconcile.SignalsDropped | backend/app/services/reconcile.py:158-161 | The signals of a lone run that keeps its status are copied and never stored. |
| ReconcileExact.PassExactly | backend/app/services/reconcile.py:149-245 | For any replies, unless a poll raises: each active row that is due takes the known status and each of the three signals its job's answer carries, and no other field or row changes; ended rows still tracked are untracked and running ones not tracked are tracked under their own job; all is committed exactly if some answered status differs from its row's. |
| ReconcileExact.RaisesExactly | backend/app/services/reconcile.py:200-230 | A pass raises if and only if an active run that is due gets neither a job nor the service's own error. |
| ReconcileExact.BackoffIs | backend/app/services/reconcile.py:68-69 | The wait after n failures is the interval times two to the n, or 300 seconds if that is less. |
| ReconcileRaises.PassRaisesIff | backend/app/services/reconcile.py:200-230 | A pass is lost if and only if the poll of some active run that is due raises anything but the service's error. |
| ReconcileRaises.RaiseLosesThePass | backend/app/services/reconcile.py:212-245 | Then no status of any run is committed, no call is made for the run that raised or a later row, and their entries stay. |
| ReconcileRaises.LaterRunsStarve | backend/app/services/reconcile.py:200-245 | What later runs' jobs would have said makes no difference. |
| ReconcileRaises.OneBadRunFreezesTheTable | backend/app/services/reconcile.py:287-317 | One active run whose polls keep raising: over any number of turns nothing is committed, and the run stays due. |
| PreflightRules.ParsesIff | backend/app/agents/preflight.py:94-109 | A preflight parses if and only if model, method, sandbox id and summary are not empty, the cost is not negative, and there are datasets, each named, sourced and of positive weight, and citations without empty fields; a missing one is refused as missing. |
| PreflightRules.LineageAcceptsIff | backend/app/agents/preflight.py:112-150 | A sandbox is accepted if and only if it exists, is the agent's, is a sandbox, has succeeded or runs, and ended, started or was created at most a day ago. |
| PreflightRules.LineageReasons | backend/app/agents/preflight.py:112-150 | Otherwise the refusal names the first of these that is wrong. |
| RunGate.HandOff | backend/app/api/runs.py:88-141 | At most four attempts, repeated only after failures; refused exactly when 401 or 403 comes before any success. |
| RunGate.CreateJob | backend/app/services/tinker.py:99-114 | At most three POSTs, each after the first only when nothing came back; the outcome is that of the last one, and never the service error the handlers catch. |
| RunGate.PostsMakeDraft | backend/app/services/tinker.py:99-114 | One after the other the POSTs leave the draft with the job the last reply names, or no draft, and every job that any of them made. |
| RunGate.CreateAnswer | backend/app/api/runs.py:173-218 | A request passes if and only if it is within budget and, for more than one GPU of a kind other than CPU outside a sandbox, brings valid evidence from a sandbox that justifies it; one that needs no evidence is never refused for it. |
| RunGate.PromoteAnswer | backend/app/api/runs.py:455-560 | A promotion passes if and only if it is within budget and the sandbox is the agent's, has succeeded, is at most a day old and makes valid evidence. |
| RunGate.Api.CreateRun | backend/app/api/runs.py:162-286 | A request that may not pass changes nothing and makes no job. One that may makes the jobs of its POSTs; without a named job it is rejected, else the row is there, field by field as requested, with that job, or, on a refusal by the supervisor, is gone and that job's cancellation was asked for. |
| RunGate.Api.PromoteRun | backend/app/api/runs.py:441-627 | The same for a promotion, with its own checks and the preflight it builds. |
| RunGate.Api.Finish | backend/app/api/runs.py:210-286 | From the checks on: job, row, hand-off; rolled back exactly when a refusal comes before any success. |
| RunGate.RunKeeps | backend/app/api/runs.py:162-286 | With checks, each POST, commit and hand-off as separate steps of any number of handlers, each gated row and draft carries a valid preflight, and every job made is on a row, on the row a handler is about to commit, or had its cancellation requested, unless a handler died knowing it alone or a POST made one its reply does not name. |
| RunGate.JobsStayIff | backend/app/api/runs.py:210-262 | A step keeps every job accounted for if and only if it is neither the death, between job and row, of the handler that alone knows one, nor a POST that makes a job its reply does not name and nothing else knows. |
| RunGate.JobsAtRest | backend/app/api/runs.py:210-286 | Without such steps, and when no handler is between its job and its row, every job is on a committed row or had its cancellation requested. |
| RunGate.RowsHaveTheirJob | backend/app/api/runs.py:223-223 | The job on a row is the one a reply of the training service named for it. |
| RunGate.ScaleRunsWereJustified | backend/app/api/runs.py:179-197 | In every interleaving each run of more than one GPU of a kind other than CPU outside a sandbox was accepted at a moment when the sandbox its valid preflight names existed, had succeeded or was running, belonged to the same agent and was at most a day old. |
| RunGate.RowsAreAsRequested | backend/app/api/runs.py:240-259 | Every row is what its request asked for, and stays it through all later status changes. |
| RunGate.SandboxesStay | backend/app/api/runs.py:264-284 | If requests cite only sandboxes whose hand-off is over, the cited sandbox exists in every reachable table, is a sandbox and has the same owner. |
| RunGate.SerialCitesSettled | backend/app/api/runs.py:162-286 | Requests handled one at a time do so. |
| RunGate.RollbackDanglesIff | backend/app/api/runs.py:277-280 | Rolling back a sandbox leaves a gated row without it if and only if the row cites it while its hand-off is under way. |
| RunGate.DanglingIsReachable | backend/app/api/runs.py:264-284 | Two overlapping requests reach a scale run whose sandbox is gone. |
| RunGate.OrphanIsReachable | backend/app/api/runs.py:210-262 | A handler dies: an execution whose only job is on no row and not cancelled. |
| RunGate.RetryOrphanIsReachable | backend/app/services/tinker.py:99-114 | A reply is lost and the POST repeated: the handler lives and commits, and the first job is on no row and not cancelled. |
| RunGate.RejectedCanMakeJobs | backend/app/services/tinker.py:99-114 | Three lost replies: a rejected request with three jobs. |
| OAuthState.Store.Remember | backend/app/agents/oauth_codex.py:63-77 | A pending row with its expiry. |
| OAuthState.Store.HandleCallback | backend/app/agents/oauth_codex.py:195-254 | Only a callback whose state verifies, whose row is usable, whose agents agree and whose exchange succeeds changes anything; it burns the nonce and stores the tokens together. |
| OAuthState.Store.CleanUp | backend/app/services/reconcile.py:252-263 | Exactly the rows expired for more than an hour go. |
| OAuthState.TableRefinesHistory | backend/app/agents/oauth_codex.py:63-103 | Whatever the clean-up deleted, every callback answers, and the tokens are, what the history of starts and completed callbacks alone determines. |
| OAuthState.CallbackAnswer | backend/app/agents/oauth_codex.py:195-254 | Every callback of a serial history, check by check: an unsigned state, one outside its times, one without a login of this provider started less than ten minutes ago and not yet completed, three agents that differ, and a failed exchange are refused, in this order; else the answer has the verifier of the start and the texts and lifetime of the exchange. |
| OAuthState.OnlySignedCommits | backend/app/agents/oauth_codex.py:117-143 | A callback whose state is not signed or not in time commits nothing and changes nothing. |
| OAuthState.TokensAreLastCommits | backend/app/agents/oauth_codex.py:232-253 | An agent has a token if and only if a callback committed one for it, and it is that of the last one's exchange. |
| OAuthState.OneCommitPerNonce | backend/app/agents/oauth_codex.py:80-103 | With callbacks one after the other, at most one per nonce commits. |
| OAuthRaces.OnePerNonceIff | backend/app/agents/oauth_codex.py:80-103 | With callbacks overlapping, at most one per nonce commits in every interleaving if and only if the update itself asks that the row be unused, which the code's update by row id does not. |
| OAuthRaces.RaceCommitsTwice | backend/app/agents/oauth_codex.py:85-103 | Two callbacks that both select before either commits both commit. |
| OAuthRaces.SecondCommitIff | backend/app/agents/oauth_codex.py:85-103 | Once one callback has committed, another can commit too if and only if it had found the row before and has not given up. |
| OAuthState.CommitIsForItsStart | backend/app/agents/oauth_codex.py:203-228 | A commit is before the expiry, for the agent that started the login, and sends the verifier of that start. |
| OAuthState.CleanupIsInvisible | backend/app/services/reconcile.py:252-267 | Deleting every clean-up from a history changes no callback's answer and no token. |

## Left out

- UTF-8: text is a sequence of characters, and a chunk may end only between characters; `extract_data` returning nothing on invalid UTF-8 and the decoder's replacement characters are not modelled.
- HTTP, websocket, database and JSON libraries, keep-alive pings and the browser's rendering; tables are maps or sequences and a transaction is one all-or-nothing step.
- Floating point: metric values, costs and clock readings are reals; the cost formula and budget lookups are inputs.
- asyncio and tokio internals: a permit released while somebody waits passes to a waiter at once, as in Python 3.12, and which waiter is left open; the lock around the entry lookup is never contended.
- Supervisor.Store.ApplyUpdate: the GPU time, cost and time stamp of a published update, which repeat the run row and the clock, are not modelled.
- Semaphores.StepKeepsInv: entries with equal last-use times may be evicted in either order, since the minimum of the table is not ordered further.
- ChunkPersister.Persister.Drain: the five-second wait on leaving and the two-second limit per insert are not modelled, because they are wall-clock bounds on the database; a failing insert is.
- StreamResume.Tail: the clamping of the Last-Event-ID header and the ownership checks are not modelled, because they only choose the cursor; the live stream's own `id:` counter is not either, the cursor is the chunk number.
- StreamStore.RowsArePrefix: one message at a time; several messages share nothing but the table.
- ToolLoop.DriveIsWellFormed: cancellation of the generator, a negative tool-call index, a tool result that is not text and upstream chunks of an unexpected shape are not modelled, because they end the generator outside the loop's own logic; tool execution returns a text for every call.
- ToolDriver.Driver.Drive: one of three drivers; the codex and openrouter drivers repeat the loop.
- LruCache.Cache.Get: a stored null reads as a miss in the original as well and is not a value here.
- RedactingFilter.SortLongest: strings of equal length may come in either order, as in the original, where a set is sorted.
- RedactingFilter.FilterHidesIff: the formatter's own rendering of an exception is taken to be the exception's text; stack frames are not modelled.
- RedactingFilter.Filter.Rewrite: keys of a dictionary of arguments are not scrubbed by the code and are not text of the record here.
- RedactingFilter.RenderedAfter: of the formatter's grammar, widths given as arguments, keys with parentheses and a dictionary shown whole by a placeholder without a key are not modelled; of the conversions of a text, neither are widths, precisions and `%c`, and its `repr` is the text in single quotes, without escapes.
- RedactingFilter.Filter.Apply: records the filter is given; which loggers it is installed on and which records pass them is not modelled.
- Rotation.Database.Rotate: key derivation, the validation sample after a commit and the command line are not modelled; two secrets give two keys.
- ReconcileRaises.OneBadRunFreezesTheTable: over turns of the loop alone; what the API handlers write to the table between passes is theirs.
- Reconcile.Reconciler.ReconcileOnce: the shapes of the supervisor's status reply are not modelled; it is a set of run ids or a failure. Concurrent writers of the run rows during a pass are not either.
- RunGate.Api.CreateRun: a handler's own contract is for one that runs undisturbed; interleavings, and handlers that die at any POST or whose commit fails after the job exists, are steps of the model. What the service does with a POST and what comes back are independent inputs; the waits between POSTs are not modelled. The lineage check and the budget check are one step, and a failing rollback is not modelled; run ids are new.
- RunGate.Api.PromoteRun: the text of the sandbox summary and the merged hyperparameters are inputs.
- OAuthState.TableRefinesHistory: callbacks are handled one after the other, on one clock read once per call, and nonces never repeat; signing is a flag of the payload. OAuthRaces treats callbacks that overlap, for one nonce.
- OAuthRaces.OnePerNonceIff: the select holds no read transaction, as with SQLite under the driver's default, where only writes open one; a row lock taken by the select, as on Postgres, is not modelled and would act like the guard.
- Endpoints for notes, metrics, settings, charts, notifications, research, MCP tools, migrations and rate limits: single-branch plumbing.
