# Verified model of the core of QClaw

A Dafny 4.11 model of the stateful and algorithmic parts of the assistant's Go core, with proofs of what they
promise. `dafny verify dfyconfig.toml` checks all of it. Code that works step by step in Go is imperative here too (methods with
loops, classes whose fields the methods update), and each such method is proved to compute a function of its
inputs or of the old state; the promises are then proved about those functions, over all inputs and all runs.

| files | part of the system |
|---|---|
| `Runes`, `Fences`, `Splitter`, `SplitWeave`, `SplitBalance`, `SplitReopen`, `SplitMessage`, `SplitPoints`, `SplitLimits` | the message splitter, which cuts a text into chunks and closes and reopens fenced blocks at the cuts |
| `History`, `HistoryRepair` | the two-pass repair of a conversation before it is sent to a provider |
| `AgentLoop` | the model-and-tools loop: retries, emergency compression, tool turns |
| `SessionStore`, `SessionCrash`, `SessionRuns`, `SessionManager` | the append-only session store, crashes between its writes, whole runs with crashes, and its agreement with the in-memory store |
| `Cron`, `CronRuns` | the cron service and every run of it |
| `Cooldown`, `CooldownRuns`, `Fallback`, `FallbackRuns` | provider back-off and the fallback chain |
| `Trigrams`, `SimilarityCache` | the similarity cache of skill searches |
| `Tools`, `ToolSearch` | the tool registry and the versioned index cache |
| `MediaStore` | the media store |
| `Basics` | an option type, minimum and maximum |

How the proofs are laid out. A loop or a service is a function from a state to the next one (`Step`, `Next`,
`Iterate`, `Visit`); a run is any finite sequence of steps, with replies, clocks, failures, crashes and interleavings
given from outside. An invariant is proved to hold at the start and to survive every step, and the promises follow
from it. Where the code meets a promise only under a condition, the condition is exact (an `<==>`) or the failing
inputs are named.

## What the proofs show about the code

- The splitter's comment says that chunks respect the limit and avoid splitting code blocks. The limit holds on every
  text. The loop ends whenever each fence line, trimmed, is at most `maxLen - 7` runes (or `maxLen` is at most 4, when no
  block is ever reopened); with a longer one it can go on forever, emitting the same fence line again
  (`SplitLimits.NeverEnds`, `SplitLimits.LongBlockEndsExactly`). Blocks stay intact when fences start their lines, possibly
  indented; a fence behind other text can be cut in two (`SplitLimits.InlineFenceIsCut`). A block whose line is the last
  visible one may be reopened by the bare fence.
- Emergency compression is documented as keeping the user's last message. It does when that message is the last one, as in the first
  iteration; in later ones it keeps the message only if it lies in the newer half of the history
  (`AgentLoop.TriggerAfterCompression`, `AgentLoop.TriggerCanBeLost`).
- The session store's comment says that the next compaction or truncation corrects a compaction that crashed between its
  writes. The next compaction does nothing, and a truncation corrects it only when it keeps no more messages than were
  visible (`SessionCrash.CompactDoesNotRepair`, `SessionCrash.TruncateRepairsExactly`).
- The session store's truncation counts lines, not messages, so a corrupt line among the kept ones costs a message
  (`SessionCrash.TruncateExactly`).
- Session keys are written to files named after them, with colons, slashes and backslashes as underscores: two keys share a
  history exactly when they have equal length and differ only in these characters and underscores (`SessionStore.NamesOfKeys`).
- The in-memory store ignores a summary or history set on a session it does not know; the log-backed store creates the
  session. That is the only difference that can be observed (`SessionManager.BackendsAgreeExactly`).
- The similarity cache treats any two queries shorter than three bytes as equal
  (`SimilarityCache.ShortQueriesAnswerEachOther`).
- A search answers that the tools it found can be called in the next response. With a configured time of 1 they cannot: the tick that ends
  the iteration takes them away again (`Tools.FoundIsOfferedExactly`).
- A tool that was offered to the model can stop being callable within the same iteration, but only by being registered
  again as hidden or promoted for no time (`Tools.StaysCallableExactly`).

## Model

| member | source | states |
|---|---|---|
| `SplitMessage.SplitMessage` | pkg/channels/split.go:13-140 | the chunks are those of the loop's run (`Chunks`), whose properties are the rows below; total for every text whose fence lines leave room |
| `SplitMessage.ChunksAreFaithful` | pkg/channels/split.go:7-13 | for every text whose fence lines leave room: every chunk fits the limit; apart from closing fences and from repeated parts of earlier fence lines in front of a slice, the chunks lose, repeat and reorder nothing but white space; if fences also start their lines (possibly indented), every chunk but the last holds an even number of fences (the last one too exactly when the text does), every piece but the last is closed exactly when its cut lies inside a block, and the next one is reopened by that block's own line (the bare fence if nothing visible follows that line) |
| `SplitMessage.RunEnds` | pkg/channels/split.go:32-137 | the loop ends after at most as many iterations as the text has runes, although it rewrites its own input |
| `SplitMessage.RunMakesProgress` | pkg/channels/split.go:80-99 | every iteration shrinks the pending text and keeps the condition on fence lines, also across both rebuilding branches |
| `SplitMessage.NextState` | pkg/channels/split.go:91-98 | one iteration of the loop is one step of the run, and the pending text gets shorter |
| `SplitMessage.NextCut` | pkg/channels/split.go:39-129 | the iteration's branches choose exactly the cut that the run prescribes |
| `SplitMessage.SplitAtBlock` | pkg/channels/split.go:65-122 | the same for a block whose closing fence does not fit |
| `SplitMessage.HeaderAt` | pkg/channels/split.go:67-77 | the reopened line is the trimmed fence line, and where that line ends |
| `SplitMessage.SkipLeadingBlanks` | pkg/channels/split.go:132-136 | the next chunk starts at the first rune after the cut that is not blank |
| `SplitWeave.RunWeaves` | pkg/channels/split.go:91-97 | after any number of iterations on any text and any positive limit, each chunk is injected text, a slice of the original and possibly a closing fence; the slices are consecutive; every line injected is a contiguous part of the trimmed line of a fence that lies at the slice or before; and the pending text is the rest of the original behind such lines |
| `SplitWeave.EndedRunConserves` | pkg/channels/split.go:131-136 | when the loop ends, on any text, the slices of the chunks are the whole original but for white space at the cuts, and all that was added is closing fences and parts of earlier fence lines |
| `SplitWeave.FencelessTextIsOnlyCut` | pkg/channels/split.go:131-136 | to a text without fences nothing is added: its chunks are slices of it |
| `SplitPoints.CutsNaturally` | pkg/channels/split.go:39-51 | a text that fits is emitted whole; otherwise, when no block is open there, the cut is the last newline after the start among the 200 runes before the limit, else the last space or tab among the 100 runes before it, else the limit |
| `SplitPoints.CutsAtBlocks` | pkg/channels/split.go:53-122 | when the natural cut falls into a block: the cut is right behind the next fence if that is within `maxLen`; else, with more than 20 runes between the fence line and the natural cut, inside the block at the last newline in reach behind the fence line (or 5 runes before `maxLen`); else in front of the block, at a newline or blank in reach, or at the fence itself if that is more than 20 runes in |
| `SplitPoints.NaturalCutIsUnique` | pkg/channels/split.go:42-51 | there is only one natural cut |
| `SplitPoints.EffectiveLimits` | pkg/channels/split.go:25-42 | the limit that cuts aim at: half of a short `maxLen`, 50 less than a medium one, a tenth less than a long one |
| `SplitPoints.FencelessChunksCutNaturally` | pkg/channels/split.go:32-137 | all chunks of a text without fences are slices from one natural cut to the next, with exactly the blanks at the cuts left out |
| `SplitWeave.HeaderEchoes` | pkg/channels/split.go:67-77 | the line that is reopened, also when it stands in text that was itself injected, is a contiguous part of a fence line of the original |
| `SplitWeave.ChunksFit` | pkg/channels/split.go:7-13 | no chunk of any run, ended or not, is longer than the limit |
| `SplitBalance.InsideNotBefore` | pkg/channels/split.go:80-90 | a cut inside a block is never before the tentative split point, and far enough behind the fence line |
| `SplitBalance.StepShrinks` | pkg/channels/split.go:80-121 | each iteration strictly shrinks the pending text when fence lines leave room |
| `SplitBalance.TrimRebuilds` | pkg/channels/split.go:93-95 | what the rebuilt text consists of, position by position |
| `SplitBalance.NaturalCutClean` | pkg/channels/split.go:42-51 | the natural split point never lands inside a fence |
| `SplitBalance.DecideBalances` | pkg/channels/split.go:53-124 | every whole cut leaves an even number of fences in the chunk, every inside cut an odd one (before its closing fence) |
| `SplitBalance.RunBalances` | pkg/channels/split.go:53-137 | after any number of iterations every emitted chunk is fence-balanced and the parity of the pending fences is that of the text |
| `SplitReopen.RunReopens` | pkg/channels/split.go:65-97 | after any number of iterations, whether or not the last block is ever closed: a chunk is closed exactly when its cut lies inside a block of the original, the chunk after it starts with the line of that very block, and other chunks start with nothing injected; only the last chunk may end open |
| `SplitReopen.BlockOfContent` | pkg/channels/split.go:67-77 | the block the loop reopens, possibly through several rebuilds, is the block of the original text that is open at that place, and the line it is reopened by is that block's (the bare fence when its line has no newline in the pending text) |
| `SplitReopen.LastBlockLine` | pkg/channels/split.go:69-70 | a fence line without a newline in the pending text is the last visible line of the original |
| `SplitLimits.NeverEnds` | pkg/channels/split.go:113-120 | a text that starts with a fence line of `maxLen - 6` runes or more and does not fit is never finished: every iteration emits one more chunk |
| `SplitLimits.LongBlockEndsExactly` | pkg/channels/split.go:110-121 | a text that starts with a fenced block not closed within the limit, and whose later fence lines leave room, is finished if and only if it fits or the fence line of that block leaves 7 runes |
| `SplitLimits.InlineFenceIsCut` | pkg/channels/split.go:102-108 | a concrete balanced text, with a fence that does not start its line, whose chunks are not fence-balanced |
| `Splitter.HeaderShape` | pkg/channels/split.go:67-77 | the reopened line is a prefix of the fence's line without white space at its ends, and what was trimmed is white space |
| `Splitter.InsideCut` | pkg/channels/split.go:56-66 | an inside cut is always at a block that is open at the natural split point and whose closing fence does not fit |
| `Fences.OpenFenceSpec` | pkg/channels/split.go:142-162 | the scan finds an unclosed fence exactly when the number of fences is odd, and then the one with an even number before it and none after |
| `Fences.NextFenceSpec` | pkg/channels/split.go:164-173 | no fence lies before the one found, and none exists when none is found |
| `Fences.FindLastUnclosedCodeBlockInRange` | pkg/channels/split.go:144-162 | the loop with its in-block flag computes that scan |
| `Fences.FindNextClosingCodeBlockInRange` | pkg/channels/split.go:166-173 | the loop returns the index just after the next fence, or -1 |
| `Runes.FindLastSpec` | pkg/channels/split.go:186-208 | the last matching rune of the window, or `start - 1` when the window holds none |
| `Runes.NewlineFromSpec` | pkg/channels/split.go:175-184 | the first newline from an index on, or -1 when there is none |
| `Runes.FindNewlineFrom` | pkg/channels/split.go:177-184 | the loop computes it |
| `Runes.FindLastNewlineInRange` | pkg/channels/split.go:188-196 | the backward loop finds the last newline of the window |
| `Runes.FindLastSpaceInRange` | pkg/channels/split.go:200-208 | the backward loop finds the last space or tab of the window |
| `History.SanitizeHistoryForProvider` | pkg/agent/context.go:588-704 | the two loops compute the two passes (`Sanitize`) |
| `History.AdmitAll` | pkg/agent/context.go:593-648 | the first loop keeps exactly the messages the first pass admits |
| `History.FindAssistant` | pkg/agent/context.go:605-624 | the backward walk finds a tool-calling message exactly when the kept messages end in its run of tool messages |
| `History.CheckAnswers` | pkg/agent/context.go:657-692 | the `expected` map says whether every call id is answered in the run that follows, and how long that run is |
| `HistoryRepair.SanitizeIsWellFormed` | pkg/agent/context.go:588-704 | for every stored history the result has no system message, no orphaned tool message, every call id answered in the run that follows, and every tool-calling message after a user or tool message: the second pass does not break the rule of the first |
| `HistoryRepair.SanitizeIsIdentityExactly` | pkg/agent/context.go:588-704 | a history is left alone if and only if it is well formed |
| `HistoryRepair.SanitizeIsIdempotent` | pkg/agent/context.go:588-704 | repairing twice is repairing once |
| `HistoryRepair.SanitizeKeepsPlain` | pkg/agent/context.go:627-647 | every user and plain assistant message survives, in order |
| `HistoryRepair.SanitizeOnlyDrops` | pkg/agent/context.go:588-704 | the result is a subsequence of the history |
| `HistoryRepair.SanitizeSplitsAtPlain` | pkg/agent/context.go:593-704 | what comes before a plain message and what comes from it on are repaired independently |
| `HistoryRepair.CompleteExchangeSurvives` | pkg/agent/context.go:650-701 | a user message followed by a completely answered tool-calling turn is kept whole, whatever surrounds it |
| `HistoryRepair.BrokenTurnIsDropped` | pkg/agent/context.go:657-701 | behind a well-formed history, a turn that was cut off before all its calls were answered is dropped, and nothing else is |
| `HistoryRepair.InterruptedTurnIsDropped` | pkg/agent/context.go:588-704 | the same anywhere: any stretch of complete turns survives, and an interrupted turn at its end goes, whatever comes before the stretch and after it |
| `HistoryRepair.AppendTurn` | pkg/agent/loop.go:1422-1599 | appending a complete turn keeps a request acceptable |
| `AgentLoop.BuildMessages` | pkg/agent/context.go:559-585 | the request is one system message, the repaired history and the user message if it is not blank |
| `AgentLoop.BuildIsAcceptable` | pkg/agent/context.go:559-585 | whatever is stored, a built request has exactly one system message at its head, all calls answered and no orphaned tool message |
| `AgentLoop.RunsSendAcceptable` | pkg/agent/loop.go:1155-1595 | for arbitrary replies, errors, tool results, interference and compressions, every request of a run that starts acceptable is acceptable, and there are at most three for each iteration |
| `AgentLoop.CompressKeepsRecent` | pkg/agent/loop.go:1670-1713 | compression leaves at most four messages alone and otherwise strictly shortens the history, keeps its newer half and its last message unchanged, and only extends the content of the first |
| `AgentLoop.FullContextCompresses` | pkg/agent/loop.go:1311-1337 | after a full context with a retry left, the stored history of more than four messages becomes its first message, with extended content, and its newer half; that is stored, and the next request is the prompt and the repair of it |
| `AgentLoop.TimeoutRepeats` | pkg/agent/loop.go:1300-1309 | after a timeout with a retry left the same request is sent again |
| `AgentLoop.RetriesExactly` | pkg/agent/loop.go:1272-1340 | an iteration makes at most three calls, repeats after timeouts and full contexts only, and ends with the first other reply or the third |
| `AgentLoop.RunEndsExactly` | pkg/agent/loop.go:1135-1400 | a run ends at the first iteration whose reply does not ask for tools, with its content (or its reasoning, if that is empty) or its error, or when the iterations are used up |
| `AgentLoop.TurnHolds` | pkg/agent/loop.go:1403-1595 | a turn is the assistant message as it came and one tool message per call, in order, with that call's result and id |
| `AgentLoop.BuildHolds` | pkg/agent/context.go:559-585 | a request starts with the prompt, holds all plain messages of the history in order, and ends in the user's message unless that is blank |
| `AgentLoop.TriggerAfterCompression` | pkg/agent/loop.go:1670-1713 | after a compression the last user message of the rebuilt request is the last one of the history, unchanged, if the history has at most four messages or that message lies in its newer half; otherwise it is the first message with the note, or there is none |
| `AgentLoop.TriggerCanBeLost` | pkg/agent/loop.go:1670-1677 | a well-formed history of a question and one turn of five calls, as in a second iteration: its compression loses the question, and the repair then drops the remaining tool results |
| `AgentLoop.LastUserOfRequest` | pkg/agent/context.go:559-585 | a rebuilt request has the last user message of the history it is built from |
| `AgentLoop.FirstIterationAsks` | pkg/agent/loop.go:1272-1340 | every request of the first iteration ends in the user's message, through all retries and compressions |
| `AgentLoop.RunsStayInStep` | pkg/agent/loop.go:1403-1599 | without compression and interference a run stores exactly the messages it adds to the request |
| `AgentLoop.Agent.ForceCompression` | pkg/agent/loop.go:1670-1713 | the stored history becomes its compression |
| `AgentLoop.Agent.CallModel` | pkg/agent/loop.go:1272-1340 | the retry loop, with its rebuilds, is `CallWithRetries` |
| `AgentLoop.Agent.AppendTurn` | pkg/agent/loop.go:1403-1599 | the assistant message and one tool message per call, in order, are appended to the request and to the stored history |
| `AgentLoop.Agent.RunLLMIteration` | pkg/agent/loop.go:1135-1614 | the loop ends in the state, answer and error that `Iterate` prescribes |
| `AgentLoop.Agent.RunAgentLoop` | pkg/agent/loop.go:990-1076 | from any stored session, all requests of a message are acceptable, and the final answer is saved unless the run failed |
| `SessionCrash.CrashKeepsHistory` | pkg/memory/jsonl.go:218-439 | whatever write an operation dies after, the readable history is the new one or ends in the old one, and the offset stays within the log |
| `SessionCrash.AddAppends` | pkg/memory/jsonl.go:218-268 | an append shows exactly one more message, as soon as its line is written |
| `SessionCrash.SetHistoryReplaces` | pkg/memory/jsonl.go:363-394 | a replaced history is read back exactly |
| `SessionCrash.CompactIsInvisible` | pkg/memory/jsonl.go:396-439 | compaction changes neither history nor summary |
| `SessionCrash.CompactReclaims` | pkg/memory/jsonl.go:413-439 | compaction with something to compact leaves a log of exactly the visible messages, nothing to skip, and their number as the count |
| `SessionCrash.CountIsKept` | pkg/memory/jsonl.go:218-439 | the stored count stays the number of lines through every operation that is not interrupted |
| `SessionCrash.TruncateIgnoresCount` | pkg/memory/jsonl.go:339-360 | a count left stale by a crash has no influence on truncation |
| `SessionCrash.TruncateExactly` | pkg/memory/jsonl.go:327-361 | truncation leaves exactly the last `keepLast` visible messages if and only if no corrupt line is among the lines it keeps, or none of those it hides held a message |
| `SessionCrash.TruncateIntact` | pkg/memory/jsonl.go:327-361 | on logs without corrupt lines it always does: a suffix of the visible messages stays, `keepLast` of them or as many as there are |
| `SessionCrash.TruncateRepairsExactly` | pkg/memory/jsonl.go:424-438 | a truncation after a compaction shows what it would have shown without a crash if and only if the crash did not fall between the two writes or the truncation keeps no more than was visible |
| `SessionCrash.CompactDoesNotRepair` | pkg/memory/jsonl.go:413-428 | a second compaction after such a crash changes nothing |
| `SessionCrash.CrashedCompactShowsMore` | pkg/memory/jsonl.go:424-431 | after such a crash truncated messages are visible again |
| `SessionCrash.PartialIsIntact` | pkg/memory/jsonl.go:218-439 | no crash leaves a corrupt line, as every write is whole |
| `SessionRuns.NothingKeptIsLost` | pkg/memory/jsonl.go:218-439 | over any run of operations, each dying after any number of its writes, the readable history always ends in all that was added, less what completed truncations and replacements removed |
| `SessionRuns.UncrashedRunsAreExact` | pkg/memory/jsonl.go:218-439 | over any run without crashes it is exactly that |
| `SessionRuns.TruncationIsExactInRuns` | pkg/memory/jsonl.go:339-360 | at every point of every run with crashes, a truncation leaves exactly the last visible messages |
| `SessionRuns.RunsStaySound` | pkg/memory/jsonl.go:339-360 | at every point of every run with crashes, the offset lies within the log and no line is corrupt |
| `SessionCrash.UnskippedEndsInVisible` | pkg/memory/jsonl.go:384-388 | resetting the offset before the rewrite shows old messages again but loses none |
| `SessionCrash.EncodeRoundTrip` | pkg/memory/jsonl.go:443-456 | encoding a history and reading the lines gives it back |
| `SessionStore.ReadMessages` | pkg/memory/jsonl.go:131-176 | the reader skips the first `skip` non-empty lines and every line that does not decode |
| `SessionStore.CountLines` | pkg/memory/jsonl.go:181-200 | the number of non-empty lines |
| `SessionStore.EncodeLines` | pkg/memory/jsonl.go:443-456 | one line per message |
| `SessionStore.JSONLStore.AddMsg` | pkg/memory/jsonl.go:218-268 | the files become what the first `writes` of the planned writes leave; other files stay |
| `SessionStore.JSONLStore.GetHistory` | pkg/memory/jsonl.go:270-290 | what the key shows: the visible messages of its file; every modifying method leaves what other keys show as it was unless they share the file |
| `SessionStore.SanitizeKeySpec` | pkg/memory/jsonl.go:92-97 | a file name is as long as its key, has an underscore exactly where the key has a colon, slash, backslash or underscore, and the key's character elsewhere |
| `SessionStore.NamesOfKeys` | pkg/memory/jsonl.go:92-97 | two keys share a file if and only if they have equal length and differ only where both hold one of these four characters |
| `SessionStore.JSONLStore.GetSummary` | pkg/memory/jsonl.go:292-304 | the stored summary |
| `SessionStore.JSONLStore.SetSummary` | pkg/memory/jsonl.go:306-325 | as AddMsg, for the summary |
| `SessionStore.JSONLStore.TruncateHistory` | pkg/memory/jsonl.go:327-361 | as AddMsg, for truncation |
| `SessionStore.JSONLStore.SetHistory` | pkg/memory/jsonl.go:363-394 | as AddMsg, for replacement, metadata before log |
| `SessionStore.JSONLStore.Compact` | pkg/memory/jsonl.go:402-439 | as AddMsg, for compaction, metadata before log |
| `SessionManager.BackendsAgreeExactly` | pkg/session/jsonl_backend.go:11-76 | on every trace over keys with different file names, the log-backed and the in-memory store show the same history and summary at every point if and only if no summary or history is set on a session before its first message |
| `SessionManager.KeysAreApart` | pkg/memory/jsonl.go:79-97 | after any trace, what a key shows is what the operations on keys that share its file have left |
| `SessionManager.VisibleAfter` | pkg/memory/jsonl.go:218-439 | what the store shows after each operation in terms of what it showed before: it refines a plain message sequence |
| `SessionManager.UncrashedIsDone` | pkg/memory/jsonl.go:218-439 | an operation whose writes all succeed leaves what the operation means |
| `SessionManager.Manager.AddFullMessage` | pkg/session/manager.go:71-87 | the session, created if missing, gets one more message; others stay |
| `SessionManager.Manager.GetHistory` | pkg/session/manager.go:89-101 | the messages, none for an unknown session |
| `SessionManager.Manager.GetSummary` | pkg/session/manager.go:103-112 | the summary, empty for an unknown session |
| `SessionManager.Manager.SetSummary` | pkg/session/manager.go:114-123 | an unknown session is not created |
| `SessionManager.Manager.TruncateHistory` | pkg/session/manager.go:125-146 | the last `keepLast` messages stay |
| `SessionManager.Manager.SetHistory` | pkg/session/manager.go:277-290 | an unknown session is not created |
| `CronRuns.AtJobsRunOnce` | pkg/cron/service.go:143-163 | in every run of checks, executions, additions, removals, switches, stops, restarts, crashes and failed writes, an `at` job is claimed at most once, not before its time |
| `CronRuns.EveryJobsKeepTheirPeriod` | pkg/cron/service.go:266-282 | in every run, a later claim of the same job was due after the earlier one was made, and two claims of an `every` job are at least its period apart |
| `CronRuns.NoJobIsStranded` | pkg/cron/service.go:135-264 | while the service runs, every enabled recurring job has a next run or a claimed execution that has not finished |
| `CronRuns.CheckClaimsAllDue` | pkg/cron/service.go:135-169 | at every point of every run, a check of the running service claims each enabled job whose next run has come, once, at the clock; afterwards none is left, and all other jobs are unchanged |
| `CronRuns.ClaimedExactly` | pkg/cron/service.go:135-169 | an enabled job with a next run is claimed by a check after a wait if and only if the wait reaches that time |
| `CronRuns.EveryJobComesBack` | pkg/cron/service.go:248-282 | an `every` job whose execution finishes is claimed again by the check that comes a period later, and not by one that comes before |
| `CronRuns.FinishReschedules` | pkg/cron/service.go:211-264 | at every point of every run, a finished execution removes an `at` job that is deleted after its run, disables any other `at` job, gives every other job its next run from now, notes start and error, and leaves all other jobs alone |
| `CronRuns.StepSchedules` | pkg/cron/service.go:302-471 | adding, enabling and starting compute the next run from the clock, disabling clears it, removing removes exactly the jobs with the id |
| `CronRuns.NextRunComesNext` | pkg/cron/service.go:266-300 | an `at` job comes next at its time if that lies ahead, an `every` job exactly one period from now, an expression when its library says, and nothing else ever |
| `CronRuns.StepKeeps` | pkg/cron/service.go:82-471 | every action keeps what these promises rest on |
| `CronRuns.CheckSpaces` | pkg/cron/service.go:143-163 | the claims of one check are spaced from all earlier ones |
| `Cron.CronService.ClaimDueJobs` | pkg/cron/service.go:135-170 | while running, an id is returned if and only if an enabled job with that id has a next run of at most `now`; these are claimed, and their next run is cleared before the lock is released |
| `Cron.DueIdsSpec` | pkg/cron/service.go:147-152 | the due ids are those of enabled jobs whose next run has come |
| `Cron.CronService.ResetNextRuns` | pkg/cron/service.go:152-163 | the loop clears exactly the claimed jobs |
| `Cron.CronService.FinishJob` | pkg/cron/service.go:211-263 | a finished `at` job is removed or disabled, any other is rescheduled from now; a job that has disappeared is left so |
| `Cron.CronService.RecomputeNextRuns` | pkg/cron/service.go:302-310 | every enabled job is rescheduled from now, others keep their state |
| `Cron.CronService.Start` | pkg/cron/service.go:82-104 | starting reloads the file, reschedules, saves, and fails without running when it cannot read or write |
| `Cron.CronService.Stop` | pkg/cron/service.go:106-119 | the service no longer claims |
| `Cron.CronService.AddJob` | pkg/cron/service.go:363-404 | the new job is appended, enabled and scheduled; it stays even when saving it failed |
| `Cron.CronService.RemoveJob` | pkg/cron/service.go:427-445 | every job with the id goes, the others stay in order |
| `Cron.CronService.EnableJob` | pkg/cron/service.go:447-471 | the first job with the id is switched and rescheduled or cleared |
| `Cron.CronService.constructor` | pkg/cron/service.go:71-80 | a new service has the jobs of the file, or none when it cannot be read |
| `CooldownRuns.DeadlinesNeverMoveEarlier` | pkg/providers/cooldown.go:42-66 | over every log of events with a clock that does not go back, neither deadline of a provider moves earlier between successes, not even when the 24 h window resets the counters |
| `CooldownRuns.CountersCountTheStreak` | pkg/providers/cooldown.go:49-57 | the error count, and the count of each reason, is the number of failures that no success followed and that no gap longer than the window separates from now |
| `CooldownRuns.CountsAddUp` | pkg/providers/cooldown.go:55-57 | the error count is always the sum of the counts by reason |
| `CooldownRuns.BackOffIsWaitedOut` | pkg/providers/cooldown.go:59-108 | after a provider's k-th counting failure, unless it succeeds in between, its next call starts at least the k-th back-off later |
| `CooldownRuns.AvailableExactly` | pkg/providers/cooldown.go:86-108 | after any log, a provider is available at a time if and only if that time has reached, for each of its failures since its last success, the failure's time plus its back-off |
| `CooldownRuns.FailureExtends` | pkg/providers/cooldown.go:42-66 | one failure moves no deadline earlier, across both caps and the reset |
| `Cooldown.StandardCooldowns` | pkg/providers/cooldown.go:176-190 | the formula gives 1, 5 and 25 minutes and then an hour, as documented |
| `Cooldown.BillingCooldowns` | pkg/providers/cooldown.go:192-208 | the formula gives 5, 10 and 20 hours and then a day, as documented |
| `Cooldown.RemainingIsExact` | pkg/providers/cooldown.go:86-139 | waiting makes a provider available if and only if the wait is at least the remaining cooldown |
| `Cooldown.CooldownTracker.MarkFailure` | pkg/providers/cooldown.go:42-66 | only the provider's entry changes, to the failed one |
| `Cooldown.CooldownTracker.MarkSuccess` | pkg/providers/cooldown.go:69-83 | counters and deadlines are cleared, the last failure is kept, an unknown provider gets no entry |
| `Cooldown.CooldownTracker.IsAvailable` | pkg/providers/cooldown.go:86-108 | whether neither deadline lies ahead |
| `Cooldown.CooldownTracker.CooldownRemaining` | pkg/providers/cooldown.go:112-139 | the longer of the two waits |
| `FallbackRuns.ExecuteEnds` | pkg/providers/fallback.go:101-207 | an execution gets past its first candidates in order with exactly one attempt each, calls exactly those not in cooldown, and ends at the first one that answers, is cancelled, or fails for good; it is exhausted exactly when none does |
| `FallbackRuns.OneAttemptEach` | pkg/providers/fallback.go:117-202 | the same for every prefix of the candidates |
| `FallbackRuns.ExecutionLog` | pkg/providers/fallback.go:101-207 | what an execution leaves in the tracker: for each candidate it passed and did not skip a call and a failure with its reason at the time it returned, then for the one that ended it its call, and its success if it answered; nothing for skips and other endings |
| `FallbackRuns.PassedLog` | pkg/providers/fallback.go:117-202 | the same for every prefix of the candidates |
| `FallbackRuns.FailureBlocks` | pkg/providers/fallback.go:189-190 | a provider that has just failed in a retriable way is unavailable for at least a minute |
| `FallbackRuns.RunsKeepTheRules` | pkg/providers/fallback.go:124-147 | over any number of executions only available providers are called |
| `FallbackRuns.NextCallWaits` | pkg/providers/fallback.go:101-207 | over any number of executions, a provider's next call after its k-th counting failure starts at least the k-th back-off later, whichever execution makes it |
| `Fallback.FallbackChain.Execute` | pkg/providers/fallback.go:101-207 | the loop ends as `Executed` prescribes and leaves the tracker in the state of its log |
| `Trigrams.BuildTrigrams` | pkg/skills/search_cache.go:172-196 | the result is strictly increasing and holds exactly the packed 3-byte windows |
| `Trigrams.DropRepeats` | pkg/skills/search_cache.go:186-195 | dropping repeats in place, over the array being read, leaves each element once |
| `Trigrams.PackedIsInjective` | pkg/skills/search_cache.go:182-184 | equal numbers come from equal windows |
| `Trigrams.IncreasingIsUnique` | pkg/skills/search_cache.go:195-195 | a strictly increasing array is determined by its elements |
| `Trigrams.JaccardSimilarity` | pkg/skills/search_cache.go:198-220 | the two-index merge computes exactly the size of the intersection over the size of the union |
| `Trigrams.JaccardLaws` | pkg/skills/search_cache.go:198-220 | the score is symmetric, within [0, 1], 1 exactly for equal sets and 0 exactly for disjoint ones |
| `Trigrams.JaccardCounts` | pkg/skills/search_cache.go:198-220 | the score times the number of all windows is the number of common ones, and 1 if there are none |
| `Trigrams.WindowsAreTriples` | pkg/skills/search_cache.go:180-183 | the windows are exactly the triples of adjacent bytes, packed high byte first |
| `SimilarityCache.SearchCache.Get` | pkg/skills/search_cache.go:49-89 | a lookup hits if and only if some key stored less than the time to live ago shares at least 70% of all windows; a hit is what was last stored under the query itself or else under a most similar key, and makes that key the most recent |
| `SimilarityCache.SearchCache.Put` | pkg/skills/search_cache.go:91-133 | afterwards the cache is the one `AfterPut` prescribes, with the new results under the query |
| `SimilarityCache.PutKeeps` | pkg/skills/search_cache.go:93-133 | a put keeps the key list duplicate-free, equal to the keys of the map and ordered by last use, entries equal to what was last stored, and the size within the limit |
| `SimilarityCache.PutRemovesExactly` | pkg/skills/search_cache.go:102-129 | a put removes exactly the expired entries and, when the cache is full and the key new, the least recently stored-or-hit key |
| `SimilarityCache.PutThenAnswers` | pkg/skills/search_cache.go:49-133 | what was put is what its query is answered with for less than the time to live, and no longer |
| `SimilarityCache.ScoreIsAlike` | pkg/skills/search_cache.go:83-86 | the threshold is reached exactly when ten times the common windows are at least seven times all of them |
| `SimilarityCache.HitKeeps` | pkg/skills/search_cache.go:64-66 | a hit keeps all of it |
| `SimilarityCache.EvictKeeps` | pkg/skills/search_cache.go:144-156 | eviction keeps all of it |
| `SimilarityCache.ListedOnce` | pkg/skills/search_cache.go:24-24 | no key is listed twice and the list is as long as the map |
| `SimilarityCache.PerfectScore` | pkg/skills/search_cache.go:198-220 | the score of two queries is 1 exactly when they have the same windows |
| `SimilarityCache.ShortQueriesAnswerEachOther` | pkg/skills/search_cache.go:200-202 | any two queries shorter than three bytes answer each other |
| `SimilarityCache.SearchCache.MostSimilar` | pkg/skills/search_cache.go:71-81 | the loop over the map finds a most similar unexpired key, in whatever order it visits them |
| `SimilarityCache.SearchCache.EvictExpired` | pkg/skills/search_cache.go:144-156 | exactly the unexpired entries stay, in order |
| `SimilarityCache.SearchCache.MakeRoom` | pkg/skills/search_cache.go:118-122 | oldest keys go until there is room for one |
| `SimilarityCache.SearchCache.MoveToEnd` | pkg/skills/search_cache.go:158-166 | the key's first listing is removed and the key appended |
| `Tools.PromotionLasts` | pkg/tools/registry.go:70-98 | a promoted hidden tool that nothing else touches is callable for exactly as many ticks as it was promoted for |
| `Tools.StaysCallableExactly` | pkg/tools/registry.go:33-98 | a callable tool stays callable through an operation if and only if that operation does not hide it anew, promote it for no time, or tick away its last turn |
| `Tools.OfferedStaysCallable` | pkg/agent/loop.go:1178-1181 | within an iteration, where nothing ticks, an offered tool is still callable when its call is dispatched unless it was hidden anew or promoted for no time |
| `Tools.HiddenChangesWithVersion` | pkg/tools/registry.go:18-18 | promotions and ticks do not change what is searched, so the version need not change |
| `Tools.SearchedExactly` | pkg/tools/registry.go:33-137 | after any operations on a new registry, a tool is searched if and only if the last registration of its name added it as hidden |
| `Tools.RegistrationDecides` | pkg/tools/registry.go:33-66 | a registered core tool is callable and not searched, one registered as hidden is searched and not callable, and no other tool changes |
| `Tools.ToolRegistry.ToProviderDefs` | pkg/tools/registry.go:261-296 | the definitions are exactly the tools that `Get` finds, each once |
| `Tools.ToolRegistry.Get` | pkg/tools/registry.go:139-151 | core tools, and hidden ones with time left |
| `Tools.ToolRegistry.PromoteTools` | pkg/tools/registry.go:72-88 | exactly the listed hidden tools get the time |
| `Tools.ToolRegistry.TickTTL` | pkg/tools/registry.go:90-98 | every hidden tool with time left loses one |
| `Tools.ToolRegistry.RegisterCore` | pkg/tools/registry.go:33-48 | the entry is replaced and the version grows |
| `Tools.ToolRegistry.AddHidden` | pkg/tools/registry.go:51-66 | the entry is replaced, without time, and the version grows |
| `Tools.ToolRegistry.SnapshotHiddenTools` | pkg/tools/registry.go:121-137 | the hidden tools together with their version |
| `ToolSearch.EveryReturnIsCurrent` | pkg/tools/search_tool.go:249-279 | in every interleaving of any number of calls with registrations, promotions and ticks, with each shared read and write a step of its own, a returned engine is the one of a registry version that was current during the call |
| `ToolSearch.AdvanceKeeps` | pkg/tools/search_tool.go:249-279 | no step of a caller, on the fast path without the lock or under it, disturbs the cache or what is known of another caller |
| `ToolSearch.BM25SearchTool.GetOrBuildEngine` | pkg/tools/search_tool.go:249-279 | without interleaving, the engine is always the one that would be built from the tools hidden now |
| `ToolSearch.BM25SearchTool.Unlock` | pkg/tools/search_tool.go:191-201 | a tool found that is still registered as hidden is callable right afterwards if and only if the configured time is positive |
| `Tools.FoundIsOfferedExactly` | pkg/agent/loop.go:1598-1603 | the next request offers a tool that was found, and not touched since, if and only if the configured time is at least 2, because the iteration ends in a tick |
| `MediaStore.FileMediaStore.ReleaseAll` | pkg/media/store.go:138-170 | exactly the scope's references go, one path for each is handed over, and the three maps stay consistent |
| `MediaStore.FileMediaStore.CleanExpired` | pkg/media/store.go:175-220 | a reference stays if and only if it was stored at most the age limit ago; those that go are counted, one path for each is handed over, and the three maps stay consistent |
| `MediaStore.FileMediaStore.Store` | pkg/media/store.go:91-109 | a new reference is registered under its scope in all three maps |
| `MediaStore.UnlinkKeepsInverse` | pkg/media/store.go:196-203 | unlinking a reference, and its scope when it was the last, keeps the scope map the exact inverse of the reference map |
| `MediaStore.ReleaseKeepsInverse` | pkg/media/store.go:150-157 | so does removing a whole scope |

## Left out

- SplitMessage: the method requires that fence lines leave room, because the source's loop need not end otherwise; what
  every text is promised, whether the loop ends or not, is stated on runs (`SplitWeave.RunWeaves`, `SplitWeave.ChunksFit`).
- RunEnds: one direction only. The condition is exact for texts that start with a block not closed within the limit
  (`LongBlockEndsExactly`); in other texts a long fence line may never be the one that a cut falls behind.
- RunBalances: one direction only, under the condition that fences start their lines, possibly indented; without it some texts still
  come out balanced.
- Splitter: bytes that are not UTF-8, which Go replaces when it converts to runes. White space is the set that Go's
  `strings.TrimSpace` removes.
- Sanitizer and agent loop: message fields other than role, content, call ids and answered id; media, streaming, progress
  callbacks, reasoning channels, publishing and the provider call itself. Replies, tool results and prompts are arbitrary.
  Errors are classified as timeout, context overflow or other; the text patterns that classify them are not modelled.
- Agent loop: what other goroutines (background summarisation) do to the stored history is arbitrary, but happens while the
  model is being called, not between the appends of one turn.
- RunsStayInStep: only without compression and interference, which rewrite the stored history.
- Session store: JSON itself (a line either decodes or not), timestamps, lines longer than 10 MB (an error in the
  source), torn appends followed by further appends, lock sharding, errors on reading. Keys whose file names coincide share a session;
  the agreement with the in-memory store is stated for keys with different file names.
- Session manager: saving to and loading from disk. The backend adapter's methods only forward and log, and have no members of their own.
- Cron: `UpdateJob` and `Load`, which may put an older copy of a job's state back; payloads, names and logging. The cron-expression
  library is any function that returns nothing or a later time. Job ids are taken to be unique.
- Cron: that each claimed job is also run is up to the goroutine that claimed it; the model keeps it as pending until it finishes or the process dies.
- Fallback: wording of errors, durations, the image variant (no cooldown), how errors are classified, and concurrent executions on one tracker.
- Cooldown: powers are exact integers (the source computes small ones in floating point, where they are exact too).
- Similarity cache: query normalisation is any function from queries to bytes; scores are reals where the source divides
  floats; one clock reading stands for the several that one call makes; the library sort is a function that sorts.
- Tools: the sorted order of definitions, schemas and parameters, the regular-expression search, the ranking itself, running
  tools; the version counter is unbounded (64 bits in the source). The interleavings of the index cache are those of a sequentially consistent memory;
  a registration's change of the map and of the version is one step, which callers cannot tell apart from two because snapshots take the registry's lock.
- Media store: files on disk (whether one exists is an argument, those to delete are a result) and the cleaning goroutine. References are taken to be unique.
- System prompt caching, routing, channel adapters, providers, configuration and hardware tools are not part of this model.
