# Verified model of Honeyrail's telemetry, coordination and storage logic

A Dafny 4.11 model of the parts of Honeyrail (a gateway that runs coding agents, captures their
telemetry and grades them) whose behaviour is hardest to see from one function at a time, with proofs
over every input, every log, every directory tree and every interleaving.

`dafny verify dfyconfig.toml` checks the whole project.

## What is modelled

**Session telemetry** (`server/evals/dsh-session-stats.ts`, `server/evals/dsh-trajectory-bridge.ts`)

- `zstd_frames.dfy`, `zstd_theorems.dfy` - the Zstandard frame scanner, as the loops of the program, and the
  frame layout of RFC 8878 section 3.1.1 as an encoder that knows nothing of scanning. The two are connected
  in both directions: what the scanner accepts, what it calls torn and what it rejects, each exactly.
- `zstd_decode.dfy`, `zstd_log.dfy`, `session_log.dfy`, `sequences.dfy`, `telemetry_walk.dfy`, `telemetry_tree.dfy`,
  `telemetry_read.dfy`, `telemetry.dfy` - bounded ingestion: inflating frames under a byte budget, parsing lines under an event
  budget, walking a tree under three limits, and all of them together, each compared with its unbounded
  counterpart.
- `session_events.dfy`, `session_stats.dfy`, `session_meaning.dfy`, `tool_time.dfy` - the statistics fold; what
  its figures mean, read off a whole log; how large tool time can get.
- `trajectory_bridge.dfy` - the bridge that pairs the same calls and results by a different rule.

**Coordination protocols**, as steps that interleave freely

- `merge_lock.dfy`, `merge_lock_proof.dfy`, `merge_lock_events.dfy` - the promise-chain lock of
  `server/worktrees.ts`, at the level of promises, reactions and the microtask queue.
- `facade.dfy`, `facade_proof.dfy`, `facade_progress.dfy`, `facade_events.dfy`, `facade_wire.dfy`, `base64.dfy` - the
  file channel between facade clients and
  the broker of `server/capability/grader-legible-facade.ts`, with piecemeal writes and renames, and the
  response format (base64 per section 4 of RFC 4648).
- `scheduler.dfy`, `session_monitor.dfy`, `session_outcome.dfy` - the coalescing scheduler and the reconcile passes of
  `server/session-monitor.ts`.

**Agreement and round trips**

- `store_events.dfy`, `store_events_proof.dfy`, `store_steps.dfy`, `store_fields.dfy` - the SQLite store against the
  JSON store.
- `shell_words.dfy` - shell quoting against POSIX word parsing.
- `grader.dfy`, `grader_cases.dfy`, `attempts.dfy`, `attempt_cases.dfy` - the external grader and the accounting of
  attempts.

State that the program updates in place is a class whose methods are proved against a function on its view
(`DiscoveryWalk`, `EventLoop`, the two `Monitor`s, the stores); loops over mutable variables are methods with
invariants; pure code is functions. The results are lemmas about those functions, and each operation is tied to
something that does not mention it: an encoder, the nodes of a tree, the fields of a log, the events of a run.

## Results that differ from what the code says about itself

- The comment at `server/evals/dsh-session-stats.ts:174-178` says that tool intervals are disjoint, so that
  `toolMs` can never exceed the wall time. Nothing makes them disjoint. `ToolTime.ConcurrentCallsAreFlagged`
  is a four-event log with twice the wall time; `ToolTime.ToolTimeBoundExactly` and
  `ToolTime.NeverFlaggedExactly` give the exact condition. Model time does obey the comment, on any
  chronological log (`SessionStats.ModelTimeFitsInSpan`).
- The bounded and the unbounded reader agree, where the bounded one returns, if and only if every entry with a
  matching name is a regular file (`Telemetry.ReadersAgreeExactly`). A log behind a symbolic link is a session
  for the unbounded reader alone (`Telemetry.LinkedLogsAreSkipped`); a matching directory, special file or
  dangling link fails the unbounded reader (`Telemetry.UnopenableMatchFails`).
- The bridge reports at least the tool time the fold counts on every log whose ids are unambiguous
  (`TrajectoryBridge.BridgeReportsAtLeastToolMs`), but not on every log: the fold files a call without an id
  under the name "undefined", and the bridge ignores it (`TrajectoryBridge.CallsWithoutIdsDisagree`).
  `TrajectoryBridge.BridgeReportsAtLeastExactly` gives the exact condition, on all logs.
- The two stores hold the same steps all along if and only if every step is created under a new key and no
  update that finds a step changes its key or its creation time (`StoreSteps.StoresAgreeExactly`). A renamed step
  is renamed in the JSON store and duplicated in the SQLite store (`StoreSteps.RenamingDisagrees`); a new
  creation time reaches the JSON store alone (`StoreSteps.RedatingDisagrees`).
- The two stores hold the same events all along, whatever the query does with ties, if and only if every event
  that is ever pruned is older than each of the 200 after it (`StoreEventsProof.StoresAgreeExactly`); two events in
  one millisecond at the cut are enough to part them.
- `listEvents(0)` lists everything from the JSON store and nothing from the SQLite store, and a negative limit
  differs too; the limits and logs on which the lists agree are given exactly
  (`StoreEventsProof.ListsAgreeExactly`).

## Assumptions

- Bytes and text: the decompressor and the JSON parser are uninterpreted functions. The decompressor fails on a
  frame it finds corrupt, and under a cap exactly when its output would exceed the cap - also under a cap of 0.
  Text is valid UTF-8, so the byte length of a decoded text is the number of bytes it was decoded from.
- Session events: `turn` and `step` are numbers or absent; times are whole milliseconds; a tool result's source
  id is a string or absent. Limits are non-negative; the event bound of the line parser may be negative.
- Files do not change while they are read, and a file has the size that `lstat` reports. A symbolic link leads to
  a file or nowhere: a link to a directory, into which a recursive `readdir` may descend, is not represented.
- Facade clients follow the client script, pick distinct ids and write a JSON object or unparsable text; the
  listing of the fixture directory is constant; no file operation fails.
- Monitor passes run one at a time (which the scheduler guarantees) with no route in between; calls on the store
  and the event bus do not fail.
- ISO timestamps are integers that order alike. JSON columns give back what was written.

## Model

| member | source | states |
|---|---|---|
| ZstdScanner.WalkBlocks | server/evals/dsh-session-stats.ts:317-331 | the inner loop: walking block headers from an offset finds the end, the torn tail or the reserved block that the recursive reading of the blocks finds, and never runs past the buffer |
| ZstdScanner.WalkFrame | server/evals/dsh-session-stats.ts:296-335 | one attempt at a frame, with its early exits in order, is the step over a frame at that offset |
| ZstdScanner.ScanZstdFrames | server/evals/dsh-session-stats.ts:292-339 | the whole loop, which keeps only an offset and the frames so far, computes the scan that the theorems below characterize |
| ZstdScanner.FrameStepBounds | server/evals/dsh-session-stats.ts:295-336 | a complete frame takes at least nine bytes and never more than there are: the termination measure |
| ZstdTheorems.TruncationTheorem | server/evals/dsh-session-stats.ts:286-339 | cut any concatenation of well-formed frames at any byte: no throw, exactly the frames that fit whole, and the start of the cut frame unless the cut is on a boundary |
| ZstdTheorems.ScanSucceedsExactly | server/evals/dsh-session-stats.ts:292-339 | the scan returns these frames and this torn start if and only if the buffer is those well-formed frames followed by nothing or by a tail that neither begins with a frame nor shows a broken field |
| ZstdTheorems.ScanThrowsExactly | server/evals/dsh-session-stats.ts:298-326 | the scan throws this fault at this byte if and only if, after whole frames, a field that is completely there breaks the format there |
| ZstdTheorems.FrameStepDoneExactly | server/evals/dsh-session-stats.ts:301-336 | a frame of n bytes is stepped over if and only if the bytes begin with the encoding of some well-formed frame of n bytes |
| ZstdTheorems.FrameStepCorruptExactly | server/evals/dsh-session-stats.ts:298-326 | each of the three faults is reported, with its position, if and only if the bytes show it |
| ZstdTheorems.FrameStepTornExactly | server/evals/dsh-session-stats.ts:297-333 | torn means exactly: no complete frame and no broken field |
| ZstdTheorems.EncodedFrameStep | server/evals/dsh-session-stats.ts:301-336 | the encoding of a well-formed frame, whatever follows it, is stepped over exactly |
| ZstdTheorems.DecodedHeader | server/evals/dsh-session-stats.ts:303-316 | descriptor bits and field lengths of an accepted header are those of a valid RFC 8878 header that encodes to the same bytes |
| ZstdTheorems.ScanStableUnderAppend | server/evals/dsh-session-stats.ts:286-339 | bytes appended later never change a thrown error nor a reported frame: the scan resumes where it stopped, as a scan of its own |
| ZstdTheorems.ScanIsContiguous | server/evals/dsh-session-stats.ts:293-337 | the frames tile the buffer from 0 up to the torn start or the end, each at least nine bytes, so at most length/9 of them |
| ZstdTheorems.ScanIsPositional | server/evals/dsh-session-stats.ts:292-339 | scanning a suffix gives the same answer moved by its position |
| ZstdDecode.DecodeZstdSessionLog | server/evals/dsh-session-stats.ts:381-407 | frames inflated under a shrinking budget give the unbounded answer, unless more than the budget inflates before the first corrupt frame; then, and only then, the limit error |
| ZstdLog.InflateMeaning | server/evals/dsh-session-stats.ts:384-405 | either all parts inflate and the outputs are joined in order, or the first that does not is named; the bytes that count against a budget are those inflated before it |
| ZstdLog.CutStreamHasFrames | server/evals/dsh-session-stats.ts:381-386 | cut a stream of well-formed frames at any byte: the parts decoded are exactly the frames that are there whole |
| ZstdLog.CompressedLog | server/evals/dsh-session-stats.ts:475-482 | a compressed log, cut anywhere while it was written, reads as the lines of what its whole frames inflate to, or fails on the first of them that does not inflate |
| ZstdLog.PlainLog | server/evals/dsh-session-stats.ts:479-480 | an uncompressed log reads as the lines of its own bytes |
| SessionLog.LinesAreTheCut | server/evals/dsh-session-stats.ts:227-229 | splitting gives the one sequence of newline-free lines that joins back to the text |
| SessionLog.NonBlankMeaning | server/evals/dsh-session-stats.ts:227-229 | the lines kept are all those with a character that is not white space, in order |
| SessionLog.WhiteSpaceIs | server/evals/dsh-session-stats.ts:228-228 | white space is the 25 characters that trim removes |
| SessionLog.ParseAllMeaning | server/evals/dsh-session-stats.ts:227-229 | the parsed events are the parses of the non-blank lines in order, and a failure names the first malformed one |
| SessionLog.ParseSessionLogBounded | server/evals/dsh-session-stats.ts:247-263 | equal to the unbounded parser, result or error, within the bound; otherwise the error of a malformed line among those let through, or else the limit error; nothing past the bound is ever parsed |
| TelemetryWalk.DiscoveryWalk.VisitEntry | server/evals/dsh-session-stats.ts:570-596 | visiting one entry, and everything below it when it is a directory, changes the counters and stops at a broken limit exactly as processing its visits one by one does |
| TelemetryWalk.DiscoveryWalk.WalkDir | server/evals/dsh-session-stats.ts:598-607 | walking a directory is processing everything below it, directories before their contents, up to the first broken limit |
| TelemetryTree.VisitsAreTheNodes | server/evals/dsh-session-stats.ts:570-615 | a walk visits every node of the tree at whatever depth - addressed by child indices, without walking - exactly once, each directory before its contents, with its path and kind |
| TelemetryTree.MatchedFilesAreTheLogs | server/evals/dsh-session-stats.ts:582-596 | the files a walk finds are all the regular files, at any depth, whose names end in .jsonl or .jsonl.zstd, each once |
| TelemetryTree.WalkLimitsExactly | server/evals/dsh-session-stats.ts:570-596 | a tree is within the limits of the walk if and only if its nodes at all depths, its logs and their bytes are no more than allowed |
| TelemetryWalk.WalkFromStart | server/evals/dsh-session-stats.ts:566-619 | success if and only if entries, matching regular files and their bytes are all within the limits, with exactly those files; a failure names a limit the tree really breaks; at most maxEntries + 1 entries are visited |
| TelemetryWalk.VerdictIgnoresOrder | server/evals/dsh-session-stats.ts:557-620 | two listings of one tree in different orders get the same verdict and the same files |
| TelemetryWalk.SameListingSameVisits | server/evals/dsh-session-stats.ts:598-615 | reordering directories anywhere in a tree permutes the visits |
| TelemetryRead.ReadOne | server/evals/dsh-session-stats.ts:650-671 | one file succeeds if and only if it reads on its own and fits both remaining budgets; each limit error is real and any other error is the file's own |
| TelemetryRead.ReadWithinBudgets | server/evals/dsh-session-stats.ts:647-673 | the loop succeeds if and only if every file reads and both totals are within the limits, and returns what the unbounded reader returns for each file |
| Telemetry.ReadBoundedDshSessionTelemetry | server/evals/dsh-session-stats.ts:640-674 | end to end: returns if and only if the whole tree is within all five limits and every matching regular file reads, and then has one session for each such file at any depth, with its path and its events, or nothing when there is none; every error is justified |
| Telemetry.ReadingIgnoresOrder | server/evals/dsh-session-stats.ts:618-673 | whatever sort is used, the same files are read, with the same verdict and the same sessions |
| Telemetry.ReadersAgreeExactly | server/evals/dsh-session-stats.ts:470-497 | on any tree on which the bounded reader returns, both readers report nothing or both the same sessions if and only if every entry with a matching name is a regular file; otherwise the unbounded reader fails or reports more sessions |
| Telemetry.BoundedAgreesWithRaw | server/evals/dsh-session-stats.ts:640-674 | on the trees where they can agree, the bounded reader returns exactly when the unbounded one does and the limits hold |
| Telemetry.UnopenableMatchFails | server/evals/dsh-session-stats.ts:474-484 | on any tree, one matching directory, special file or dangling link fails the whole unbounded read, whatever else there is |
| Telemetry.LinkedLogsAreSkipped | server/evals/dsh-session-stats.ts:582-583 | the witness that the condition can fail: a log behind a matching link is a session for the unbounded reader and nothing for the bounded one |
| SessionEvents.CallBeforeMeaning | server/evals/dsh-trajectory-bridge.ts:107-112 | the lookup finds the latest use of an id, with no result and no dropping event in between |
| SessionEvents.PairedCallExactly | server/evals/dsh-session-stats.ts:136-157 | for fold and bridge: the call a result is paired with is, by the fields of the log alone, the one call with its id and neither call, result nor (for the fold) turn end in between |
| SessionStats.PendingIsCallBefore | server/evals/dsh-session-stats.ts:136-157 | after any prefix, what is pending, and since when, is exactly what looking back from there finds |
| SessionStats.ToolMsIsPairedMs | server/evals/dsh-session-stats.ts:140-147 | toolMs is the total time of the call/result pairs the log contains |
| SessionStats.ModelTimeFitsInSpan | server/evals/dsh-session-stats.ts:107-135 | on any chronological log, however malformed its steps, ttftMs + decodeMs is at most llmMs, which is at most the span of the log |
| SessionStats.FindTimingInconsistency | server/evals/dsh-session-stats.ts:204-208 | nothing is found if and only if neither time exceeds the wall time, and model time is named first |
| SessionStats.ConcatenationIsSum | server/evals/dsh-session-stats.ts:210-224 | folding a log after one that ends with nothing open gives the sum of the two folds in every field, but a turn both claim counts once |
| SessionStats.TurnsAreDistinctTurns | server/evals/dsh-session-stats.ts:148-155 | with turn numbers that never go back, turns is the number of distinct turns with a closed step, and steps the number of closed steps |
| StatsMeaning.FoldIsSumOfContributions | server/evals/dsh-session-stats.ts:27-46 | on every log, every figure is a sum over its events, read off the fields of the log: of the intervals each one closes - start to message, start to first non-empty output, first output to message, call to result - and of the closed steps, each with a turn when it changes the turn |
| StatsMeaning.OpenStepStep | server/evals/dsh-session-stats.ts:110-134 | the fold's open step is the latest start that no end, start or matching message has closed, with the first non-empty delta after it |
| ToolTime.ToolMsIsArea | server/evals/dsh-session-stats.ts:136-157 | conservation: toolMs is exactly the area under the curve of completed calls running at once |
| ToolTime.ToolTimeBoundExactly | server/evals/dsh-session-stats.ts:173-208 | k times the span bounds toolMs under every timing of a log if and only if nowhere more than k completed calls overlap |
| ToolTime.ReadersTimeExactly | server/evals/dsh-trajectory-bridge.ts:104-112 | one pairing rule's total is at most another's under every timing of a log if and only if at every gap at most as many of its pairs run |
| ToolTime.OverlapCountsPendingIds | server/evals/dsh-session-stats.ts:136-147 | completed calls that overlap have different ids, each pending there, so the overlap is at most the number of pending calls |
| ToolTime.ToolTimeFitsPending | server/evals/dsh-session-stats.ts:136-157 | toolMs is at most the largest number of simultaneously pending calls times the span, re-issued ids and drops at turn end included |
| ToolTime.SequentialLogsAreConsistent | server/evals/dsh-session-stats.ts:204-208 | with at most one pending call and a wall time that covers the log, no inconsistency is found |
| ToolTime.NeverFlaggedExactly | server/evals/dsh-session-stats.ts:173-208 | no timing and no covering wall time makes the check fire if and only if no two completed calls overlap |
| ToolTime.ConcurrentCallsAreFlagged | server/evals/dsh-session-stats.ts:174-178 | the log that contradicts the comment: two overlapping calls, twice the wall time, flagged |
| TrajectoryBridge.DeriveTrajectoryEvents | server/evals/dsh-trajectory-bridge.ts:113-169 | the output tells exactly the pairs of the log, in the order of their results, by the fields of the log alone: for each one tool_call with its time, name, arguments, message, duration and error, then a shell_command with command, working directory and text if and only if it is a bash call with a tool result, and nothing else; it throws at the first paired result whose time is no valid date |
| TrajectoryBridge.OutputIsNumbered | server/evals/dsh-trajectory-bridge.ts:115-161 | seq counts 1, 2, 3, ... over the output |
| TrajectoryBridge.ToolCallMsIsPairedMs | server/evals/dsh-trajectory-bridge.ts:137-149 | the durations of the tool_call entries add up to the time of the pairs |
| TrajectoryBridge.ReadersCompared | server/evals/dsh-trajectory-bridge.ts:104-112 | on every log: the bridge finds the call the fold finds if and only if that call carries an id, and the fold finds the call the bridge finds if and only if no turn ended since and no call without an id took its place |
| TrajectoryBridge.FoldPendingIsSubmap | server/evals/dsh-session-stats.ts:136-157 | at every point of every log what the fold has pending the bridge has pending, dispatched at the same time, but for the one entry under which the fold files calls without an id |
| TrajectoryBridge.BridgeReportsAtLeastExactly | server/evals/dsh-trajectory-bridge.ts:104-169 | with or without ids: under every timing of a log the bridge reports at least the tool time the fold counts if and only if at every gap at least as many of its pairs run, and exactly that time if and only if as many run |
| TrajectoryBridge.UnambiguousOverlap | server/evals/dsh-trajectory-bridge.ts:113-136 | the condition always holds when no result answers to the text a missing id turns into |
| TrajectoryBridge.BridgeReportsAtLeastToolMs | server/evals/dsh-trajectory-bridge.ts:104-112 | and then reported time is toolMs plus the time of the pairs across a turn's end, so they agree if and only if all those took no time |
| TrajectoryBridge.CallsWithoutIdsDisagree | server/evals/dsh-session-stats.ts:136-139 | the witness that the condition can fail: a call without an id, and a result that answers to "undefined" |
| MergeLock.EventLoop.BeginMerge | server/worktrees.ts:167-174 | the synchronous part of merge: both subscriptions, the callback's before the await's, and the new lock in the map, all for the repository of the call |
| MergeLock.EventLoop.RunMicrotask | server/worktrees.ts:170-174 | one microtask: install the resolver, resume, subscribe the lock to the inner promise, or settle the lock |
| MergeLock.EventLoop.EndMerge | server/worktrees.ts:216-221 | the finally block: release, then delete the map entry if it is still this merge's, then finished |
| MergeLockProof.StepKeepsInv | server/worktrees.ts:167-222 | the invariant that ties merges, map, promises, reactions and queue together survives every step |
| MergeLockEvents.StateTells | server/worktrees.ts:167-221 | over every run the merges are the arrivals, each on the repository it was called for, finished if and only if completed, and the commands are those that were run |
| MergeLockEvents.WhatCanHappen | server/worktrees.ts:167-222 | a merge can always arrive, a queued microtask can always run, and commands come from a merge past its await alone |
| MergeLockProof.EnterIsNext | server/worktrees.ts:170-174 | a resumption at the front of the queue finds its resolver installed and every earlier merge of the repository finished |
| MergeLockEvents.MutualExclusionByEvents | server/worktrees.ts:167-222 | over every run: a merge is past its await, or completed, only when every merge that arrived before it on its repository has completed |
| MergeLockEvents.CommandsInBlocks | server/worktrees.ts:176-215 | the commands run on one repository come in whole blocks, merge by merge, in arrival order |
| MergeLockProof.ReleaseIsInstalled | server/worktrees.ts:169-174 | nobody who is past the await still has the placeholder release |
| MergeLockEvents.LockMapByEvents | server/worktrees.ts:216-221 | the map has an entry for a repository if and only if a merge that arrived on it has not completed, and it is the latest arrival |
| MergeLockEvents.NobodyWaitsByEvents | server/worktrees.ts:168-174 | no release is lost and repositories do not wait for each other: once no microtask is left, an unfinished merge whose predecessors on its own repository have completed is past its await, whatever other repositories hold |
| MergeLockEvents.MicrotasksPerArrival | server/worktrees.ts:168-173 | at most four microtasks per arrival in any run, so the queue always drains |
| Base64.RoundTrip | server/capability/grader-legible-facade.ts:167-168 | any bytes come back from their encoding, which is always a single line |
| Base64.GroupIsBigEndian | server/capability/grader-legible-facade.ts:167-168 | three bytes and their four symbols are the same 24-bit number |
| Base64.TestVectors | server/capability/grader-legible-facade.ts:167-168 | the test vectors of RFC 4648 section 10, with both kinds of padding, and the last symbols of its table |
| FacadeWire.ResponseRoundTrip | server/capability/grader-legible-facade.ts:96-102 | the three lines a client reads of a response give back exactly stdout, stderr and status, for arbitrary bytes |
| FacadeWire.BodyLines | server/capability/grader-legible-facade.ts:167-172 | a response body has exactly its three lines, whatever was printed |
| FacadeProof.StepKeepsInv | server/capability/grader-legible-facade.ts:163-237 | the invariant over files, clients, polls, executions and answers survives every step of client and broker |
| FacadeProof.ExecutedAtMostOnce | server/capability/grader-legible-facade.ts:209-218 | over every run a request is executed at most once, with its own command and arguments, and only if it parses and names a fixture |
| FacadeProof.OneExecutionAtATime | server/capability/grader-legible-facade.ts:209-222 | the draining flag admits one poll, so two fixtures never run at once |
| FacadeEvents.ClientGetsItsOwnAnswer | server/capability/grader-legible-facade.ts:76-103 | over every run a client that has read its three lines has, byte for byte, what the fixture printed when it was run for the request that this client wrote, or the error that text deserves, with exit codes 127 and 98 |
| FacadeEvents.FixtureEndsOnce | server/capability/grader-legible-facade.ts:209-218 | no request has its fixture end twice |
| FacadeEvents.ClientsTellTheirEvents | server/capability/grader-legible-facade.ts:76-103 | a client's text and phase, and how many lines it has read, are what its own events say |
| FacadeEvents.AnyoneCanAsk | server/capability/grader-legible-facade.ts:80-82 | an id that nobody has taken can be asked under |
| FacadeEvents.AskedCanBeSent | server/capability/grader-legible-facade.ts:80-83 | what a client asked can be written out and sent |
| FacadeEvents.ResponseCanBeRead | server/capability/grader-legible-facade.ts:85-102 | a client that has not given up can notice a response that is there and read all three lines |
| FacadeProof.VisibleResponsesAreComplete | server/capability/grader-legible-facade.ts:167-173 | a response file that exists is complete, although it was written piecemeal |
| FacadeEvents.PollAnswersWhatWasSent | server/capability/grader-legible-facade.ts:209-222 | at the end of a poll, stopped or not, every request that had been sent before the poll listed the directory has its response |
| FacadeEvents.TickStartsPoll | server/capability/grader-legible-facade.ts:209-211 | a tick starts a poll unless one is in progress or the broker was stopped |
| FacadeProof.NoRequestIsLost | server/capability/grader-legible-facade.ts:175-218 | a request moved into place is waiting there, being handled, or answered |
| FacadeProgress.ProgressIsBounded | server/capability/grader-legible-facade.ts:209-222 | over every run the broker takes at most two steps per listing of the directory and six per entry listed, not counting the pieces in which it writes a response |
| FacadeProgress.PollCanAdvance | server/capability/grader-legible-facade.ts:209-222 | a poll in progress is never stuck: one of those steps is enabled, at the latest after the response has been written out once more |
| Scheduler.Monitor.Run | server/session-monitor.ts:336-343 | run starts a pass, records a rerun, or does nothing, and counts the pass |
| Scheduler.Monitor.PassSettled | server/session-monitor.ts:344-351 | the end of a pass starts the one pass that was asked for, unless stopped |
| Scheduler.PassesNeverOverlap | server/session-monitor.ts:332-352 | over every run, passes started are passes settled plus the one in progress |
| Scheduler.StoppedExactly | server/session-monitor.ts:332-357 | the monitor is stopped if and only if the returned stop function was called |
| Scheduler.EveryTickIsServed | server/session-monitor.ts:336-351 | in any run in which stop was not called, a tick starts a pass exactly when none is in progress, and otherwise another pass starts the moment that one settles |
| Scheduler.TicksAreCoalesced | server/session-monitor.ts:338-350 | while a pass is in progress nothing starts, and where it settles exactly one pass starts if and only if a tick came in between |
| Scheduler.NoneStartsAfterStop | server/session-monitor.ts:356-359 | no pass starts once stop was called |
| SessionMonitor.Monitor.ReconcileSession | server/session-monitor.ts:118-293 | one session of a pass: terminal, lost, fatal, completed, auto-answered or polled, with all effects on record, caches and events |
| SessionMonitor.Monitor.ReconcileSessions | server/session-monitor.ts:114-118 | a pass prunes both caches and then reconciles every listed session in order |
| SessionMonitor.PassIsRun | server/session-monitor.ts:114-118 | a pass is one pruning of the caches and then exactly one look at each listed session, in order |
| SessionOutcome.UnreachableEnds | server/session-monitor.ts:258-292 | a session whose terminal cannot be captured ends completed if its log has text and failed if not, now, announced, its log no longer watched |
| SessionOutcome.FatalFails | server/session-monitor.ts:128-150 | a fatal screen fails the session, whatever else the screen shows |
| SessionOutcome.CompletedCompletes | server/session-monitor.ts:180-212 | otherwise a completed task completes a session that has one |
| SessionOutcome.PromptIsAnswered | server/session-monitor.ts:214-234 | otherwise a prompt tried less than twice is answered, counted and announced, or the session is lost when the keys cannot be sent |
| SessionOutcome.ScreenDecides | server/session-monitor.ts:236-259 | otherwise approval comes before input, input before staleness, stale when more than staleMs have passed since the last output; lastOutputAt moves if and only if the log grew; a change, and only a change, is announced |
| SessionOutcome.TerminalIsForgotten | server/session-monitor.ts:119-123 | a terminal session keeps its record and loses its cache entries |
| SessionOutcome.TerminalExactly | server/session-monitor.ts:18-18 | of the statuses modelled, failed, killed and completed are terminal |
| SessionOutcome.PruneForgets | server/session-monitor.ts:84-112 | pruning forgets exactly the log sizes and attempts of sessions that are not listed |
| SessionMonitor.LookKeepsCap | server/session-monitor.ts:215-233 | whatever a look sees, attempts stay within the cap and cover every answer given to a session that is still alive |
| SessionMonitor.AnsweredAtMostTwice | server/session-monitor.ts:78-83 | over any passes no prompt of a session is answered more than twice |
| SessionMonitor.SilentAdvancesAreBounded | server/session-monitor.ts:236-247 | while its log does not grow, a live session's lastOutputAt moves at most twice per prompt name |
| SessionMonitor.TerminalIsAbsorbing | server/session-monitor.ts:119-123 | a terminal session keeps its whole record through any passes |
| StoreEvents.JsonStore.AppendEvent | server/store.ts:303-311 | the array gains the event and keeps its last 200 |
| StoreEvents.SqliteStore.AppendEvent | server/sqlite-store.ts:1191-1214 | the table replaces by key and deletes what the ordered query finds past the newest 200 |
| StoreEventsProof.AppendAgreesExactly | server/sqlite-store.ts:1202-1212 | with a new id, one append takes equal stores to equal stores, in whatever order the query lists ties, if and only if everything the array drops is older than everything it keeps |
| StoreEventsProof.StoresAgreeExactly | server/sqlite-store.ts:1191-1214 | with new ids, the stores hold the same events after every append, in whatever order ties come, if and only if each pruned event is older than each of the 200 after it |
| StoreEventsProof.StoresAgree | server/sqlite-store.ts:1191-1214 | both then hold the last 200 events in the order they were appended |
| StoreEventsProof.ArrayHoldsLast200 | server/store.ts:303-311 | whatever is appended, the array holds the last 200 events |
| StoreEventsProof.TableHoldsLast200 | server/sqlite-store.ts:1202-1212 | the table holds the last 200 events whenever what the query prunes is the oldest |
| StoreEventsProof.ArrayLists | server/store.ts:313-315 | what the array lists for a positive, a zero and a negative limit |
| StoreEventsProof.ListsAgreeExactly | server/sqlite-store.ts:1216-1221 | listEvents(limit) agrees, in whatever order ties come, if and only if there are no events, or the limit is at least 1 and each listed event is newer than all before it; a limit below 1 always parts them |
| StoreSteps.NormalIsIdentityExactly | server/sqlite-store.ts:526-543 | exactly which steps survive being written to a row and read back unchanged |
| StoreSteps.MergeThroughRow | server/sqlite-store.ts:989-995 | merging into what was read back, and writing that, is merging into the step itself |
| StoreSteps.StepAgreesExactly | server/sqlite-store.ts:964-995 | the same for one operation on any stores that hold the same steps: the table the normal form of every step of the array, under its key, and nothing else |
| StoreSteps.StoresAgreeExactly | server/sqlite-store.ts:964-995 | over any creations and updates the stores hold the same steps all along if and only if every creation has a new key and no update that finds a step changes its key or creation time |
| StoreSteps.GetsAgree | server/sqlite-store.ts:984-987 | getStep finds the same step in both stores, up to its normal form, or in neither |
| StoreFields.UpdateIsRead | server/sqlite-store.ts:989-995 | after an update that leaves key and creation time alone, getStep gives in both stores the new value of every field the update sets and the old value of every other, with the defaults of the table where a field was set to nothing; no other step changes |
| StoreFields.CreatedIsRead | server/sqlite-store.ts:964-977 | a step created under a new key is what getStep gives, field by field, with the defaults of the table |
| StoreSteps.ListsAgreeExactly | server/sqlite-store.ts:979-982 | listSteps gives a run in the same order in both stores, in whatever order ties come, if and only if the steps of the run were created at increasing times, although updates move rows |
| StoreSteps.RenamingDisagrees | server/store.ts:148-155 | a witness: after an update that changes the id, getStep finds nothing in the array and the old step in the table |
| StoreSteps.RedatingDisagrees | server/sqlite-store.ts:989-995 | another: a new creation time shows in the array and never in the table |
| ShellWords.QuotedIsOneWord | server/utils.ts:53-55 | for every string, parsing its quotation yields that string as the only word |
| ShellWords.QuoteAllRoundTrip | server/utils.ts:53-55 | any list of strings comes back as that list of words |
| ShellWords.NestedRoundTrip | server/utils.ts:53-55 | quoting n times survives n shells, one inside another |
| ShellWords.LaunchCommandWords | server/agents/codex.ts:33-44 | the shell runs the agent with exactly the intended arguments, whatever model and prompt contain; the prompt is the last |
| ShellWords.ScriptLaunchWords | server/agents/null-agent.ts:25-50 | the inner shell gets the null agent's script unchanged |
| Grader.MatchChannel | server/capability/grader-legible-grader.ts:92-138 | a channel matches if and only if its lines meet the expectation, and exactly then nothing is added to the diagnostics |
| Grader.MatchLines | server/capability/grader-legible-grader.ts:107-122 | lines match if and only if all are equal, and every wrong line is reported |
| Grader.GradeSubmission | server/capability/grader-legible-grader.ts:159-257 | the verdict is the first failing stage in order, and a pass has no diagnostics |
| Grader.LegibleExactly | server/capability/grader-legible-grader.ts:203-256 | a pass if and only if the execution was valid and discriminating, all runs are identical, and every run - not only the first - meets the contract |
| Grader.ChannelRoundTrip | server/capability/grader-legible-grader.ts:83-90 | lines that are printed come back, interior empty ones included |
| GraderCases.ChannelLinesExactly | server/capability/grader-legible-grader.ts:83-90 | for every text, however its lines end: its lines without their endings, interior empty ones included, and what follows the last newline if there is anything |
| GraderCases.EveryTextIsWritten | server/capability/grader-legible-grader.ts:87-89 | every text is of the form that the other results speak of |
| GraderCases.MeetsExactly | server/capability/grader-legible-grader.ts:92-138 | which of the four expectations a text meets, by its lines |
| GraderCases.StagesExactly | server/capability/grader-legible-grader.ts:180-256 | for every input, each failure stage if and only if it is the first thing that is wrong |
| Attempts.ExecuteSubmission | server/capability/grader-legible-run.ts:383-430 | runs are collected up to the first execution that does not end by itself, and no capture past it is used |
| AttemptCases.ExecutedExactly | server/capability/grader-legible-run.ts:395-430 | the runs are the outputs of the executions before the first that did not end by itself, and the failure is that one's |
| Attempts.SuccessExactly | server/capability/grader-legible-run.ts:556-629 | an attempt is a success if and only if the submission was usable, every execution ended by itself, all agree and each meets the contract |
| AttemptCases.StatusExactly | server/capability/grader-legible-run.ts:561-613 | for every input, each status if and only if: integrity, an agent that was kept from submitting, one that was not, or a usable submission whose executions all ended |
| AttemptCases.CauseExactly | server/capability/grader-legible-run.ts:579-623 | for every input, each cause if and only if its condition on agent, submission and executions holds |
| Attempts.AttemptsAreCoherent | server/capability/grader-legible-run.ts:613-623 | status, cause and grade of an attempt agree with one another |
| AttemptCases.SummaryCounts | server/capability/grader-legible-run.ts:892-922 | every number of a condition's summary - totals, statuses, successes, each cause, each failure stage - is the number of attempts it is named after |
| Attempts.SummaryAddsUp | server/capability/grader-legible-run.ts:892-922 | per condition, attempts are the completed plus the three excluded classes and the sum of the causes; successes are the legible ones; every other completed attempt has exactly one failure stage |

## Left out

- Docker, tmux, git, HTTP, SQLite and the file system themselves: abstract state, parameters or observations.
- Skippable frames (RFC 8878 section 3.1.2) are not well-formed frames here, because the scanner rejects them as bad magic; the maximum block size (section 3.1.1.2.4) is not part of the frame layout, because the scanner does not enforce it.
- The contents of `merge` inside the lock (status checks, checkout, merge, abort): a merge that holds the lock issues any number of commands and then ends, in success or failure alike.
- `create`, `diff`, `commit`, `runChecks` and `discard` of the worktree manager: sequences of commands without shared state.
- Startup recovery of sessions, and passes that interleave with the session routes: a pass works on a snapshot, so neither keeps the properties proved for passes alone.
- Task and worktree records that a failed session marks failed, and the text patterns that classify a screen: a screen is given by what the adapter and the patterns find in it.
- Store methods other than steps and events, migrations, and persistence of the JSON file.
- Double-quotes, expansions and operators of the shell grammar: the word parser gives up on them, so the null agent's script is followed up to the inner shell's argument and not into it.
- The exact text of ISO timestamps in trajectory events, and of diagnostics.
- Which of several failing files the unbounded reader reports: all are read at once and the first to fail wins.
- The report builders and counters of `server/evals/ab-report.ts`, `server/evals/dsh-report.ts` and `server/evals/metrics.ts`, the orchestration graph, routes, user interface and command-line scripts: classification and wiring.
