# Verified models of the intertwine framework's stateful cores

This project models the parts of the framework where a mistake hides in an interleaving, a
re-entrant callback, an unusual input or a piece of arithmetic, and proves what those parts
promise. It is written in Dafny 4.11; `dafny verify dfyconfig.toml` checks all of it.

- **Event-driven file transfer** (`TransferParams`, `StreamTransfer`, `StreamReports`, `StreamRuns`,
  `CooperativeRuns`, `TransferStats`, `Router`).
  The state machine of `StreamTransfer.cpp` with a stack of frames, so that `onwrite` and
  `onclose` may fire inside `EndHeaders`, `WriteBody`, `End` and `onComplete` to any depth. The
  writer, the loop and the file system are nondeterministic. Around it stand the shared
  statistics under any number of interleaved transfers and the asynchronous route that starts
  a transfer.
- **Cross-thread call and synchronous transfer** (`WriterLoopCall`, `LegacyTransfer`). The
  handshake over `started`, `done` and `fn` as interleaved critical sections with timeouts and
  spurious wake-ups, and the back-pressured chunk loop and all exit paths built on it.
- **Ring buffer** (`SPSCMachine`, `SPSCQueue`). Every load, slot access, store and count of
  `push` and `pop` is a step of its own; each run is shown to be a history of a bounded FIFO.
  The counters wrap modulo 2^64.
- **JWT** (`Base64`, `JwtToken`, `JwtBlacklist`). Codec, payload printer and scanners,
  acceptance, and the bounded revocation list compared with the set of everything ever revoked.
  HMAC-SHA256 is an arbitrary function.
- **Snowflake ids** (`Snowflake`), **supervised thread pool** (`ThreadPool`, `PoolProgress`),
  **password records** (`PasswordUtil`) and **HTTP header blocks** (`HttpHeaders`).
- `Bits` and `Text` hold the bit operators and the standard-library searches and conversions
  that several of these share.

Two shapes recur. A system with several parties is a datatype `State` with a `Step` function
over events and a `Run` over arbitrary event sequences; an event that is impossible in a state
leaves it unchanged, so a statement about `Run` is one about every interleaving. An object that
the C++ code updates in place is a class with those fields, whose methods equate the new state
with the same step functions. Clock readings, file availability, return codes and random salts
are inputs.

## Where the code does not keep a promise

Each comes with a concrete input or run, and with the exact condition under which the promise
holds.

- `onComplete(true)` is documented as normal completion
  (`include/intertwine/fw/IFileTransfer.hpp:52`). `LegacyTransfer::send` reports true after
  `serveFile` whether the file was loaded or its path refused, with a writer or without
  (`LegacyTransfer.MissingFileIsReportedSent`, `LegacyTransfer.RefusedPathIsReportedSent`), and
  after filling a range with zeros for what it could not read
  (`LegacyTransfer.FallbackCanMissTheFile`). `LegacyTransfer.SuccessDeliversIff` says for all
  inputs when a true completion has delivered what was asked for.
- A range with a negative length throws between `recordStart` and `recordEnd`, so the active count
  stays raised (`LegacyTransfer.BackwardRangeThrows`); `LegacyTransfer.Transfer.Send` says exactly
  when.
- A route whose handler throws after the handoff may call `End` beside the transfer
  (`Router.ThrowingHandlerCanEndTwice`); `Router.EndsOnceUnlessOverreached` says exactly when
  there are two calls.
- A completion nested in the last `WriteBody` whose cleanup cannot be posted gives up the writer
  before `pump` calls `End` on it (`StreamRuns.FailedPostReleasesEarly`);
  `StreamRuns.WriterOutlivesFrames` says exactly in which runs that happens.
- Eviction from the revocation list makes a revoked token acceptable again
  (`JwtBlacklist.EvictedTokenIsAcceptedAgain`); `JwtBlacklist.RevokeAgreesIff` says exactly when.
- A timed-out sequence overflow makes the Snowflake generator repeat ids in that millisecond
  (`Snowflake.TimeoutRepeatsId`), and so does a clock that returns to a millisecond used before
  (`Snowflake.BackwardClockRepeatsId`). For every clock within its range,
  `Snowflake.IdsAreUniqueIff` and `Snowflake.RepeatsByBranch` say exactly when an id is repeated.
- The loop of `nextPowerOfTwo` does not end above 2^63 (`SPSCQueue.DoublingReaches`).

## Model

| member | source | states |
|---|---|---|
| StreamTransfer.CompletesExactlyOnce | src/StreamTransfer.cpp:38-184 | under all re-entrant callbacks, return codes and post failures, `recordEnd` and `onComplete` fire at most once, with the same flag, and exactly once once the transfer has finished or its state is destroyed; a refused `send` completes once as failed; at most one scheduled cleanup, at most one pump past its guard |
| StreamTransfer.BytesAreConserved | src/StreamTransfer.cpp:130-163 | the chunks given to `WriteBody` concatenate to a prefix of the requested range, none empty or above 256 KiB, and `remaining` plus the bytes handed over is the requested length, for all short reads |
| StreamTransfer.NoWriteAfterEnd | src/StreamTransfer.cpp:123-167 | a step that calls `WriteBody` happens only before any completion and before destruction, and appends one chunk |
| StreamTransfer.TrueCompletionDelivers | src/StreamTransfer.cpp:147-162 | completing with true means the whole range was handed over, no write was refused, and `End` was called once; `End` is never called twice |
| StreamTransfer.TrueCompletionDeliversRange | src/StreamTransfer.cpp:188-192 | in terms of the parameters, a true completion has handed over the bytes from `rangeStart` to `rangeEnd`, or all `fileSize` bytes if no range is given; a range that ends before it starts never completes with true |
| StreamTransfer.SendStarts | src/StreamTransfer.cpp:188-276 | `send` either creates a transfer that satisfies the invariant and is handed off, or completes once as failed and has created nothing; a first post that fails is reported as a failure at once |
| StreamReports.ReportsExactlyWhen | src/StreamTransfer.cpp:38-184 | in every state of every run, a step reports exactly if it has a cause: a failure if the peer is gone at the start or at a turn of the pump, the connection closes while the loop is idle or inside a call, a drained pump reads nothing, `EndHeaders` or `WriteBody` is refused, or the last reference goes; a success if `End` returns; nothing after a report |
| StreamReports.TurnOutcome | src/StreamTransfer.cpp:130-150 | one turn of an unfinished pump: it leaves the loop without a report exactly for a connected peer that has not drained, with a failure for one that is gone or if nothing is read, and otherwise hands `WriteBody` the next slice, as long as asked for (at most 256 KiB), ready and there |
| StreamReports.WriteEventPumps | src/StreamTransfer.cpp:123-128 | `onwrite` starts the pump, idle or inside a call, exactly if none is at work and the transfer has not finished, and does nothing otherwise |
| StreamReports.StartInstalls | src/StreamTransfer.cpp:169-179 | a transfer that finds its peer connected installs both callbacks before `EndHeaders`, an empty one installs none, and neither reports yet |
| StreamTransfer.StepKeepsLife | src/StreamTransfer.cpp:98-184 | every step keeps the agreement of the frames with `pumping`, `finished` and `cleanupScheduled`, and of the references with the posted events |
| StreamTransfer.StepKeepsBytes | src/StreamTransfer.cpp:138-152 | every step keeps the byte accounting |
| StreamTransfer.StepKeepsEnd | src/StreamTransfer.cpp:122-184 | every step keeps what completion, refused writes and `End` say about each other |
| StreamTransfer.ReadKeepsBytes | src/StreamTransfer.cpp:138-150 | a read, short or not, hands over exactly the next slice of the file |
| StreamTransfer.OnlyPumpMovesBytes | src/StreamTransfer.cpp:130-163 | only a turn of the pump's loop of an unfinished transfer moves bytes, by exactly one read; no step changes the request or the handoff |
| StreamTransfer.TransferState.constructor | src/StreamTransfer.cpp:209-228 | a new state is the one `send` sets up |
| StreamTransfer.TransferState.FinishTransfer | src/StreamTransfer.cpp:113-120 | `finish` up to the completion callback is the machine's step |
| StreamTransfer.TransferState.Schedule | src/StreamTransfer.cpp:98-111 | `scheduleCleanup`, with the post succeeding or not, is the machine's step |
| StreamTransfer.TransferState.StartPump | src/StreamTransfer.cpp:123-128 | the guard of `pump` is the machine's step |
| StreamTransfer.TransferState.Turn | src/StreamTransfer.cpp:130-150 | one turn of the loop up to `WriteBody` is the machine's step |
| StreamTransfer.TransferState.ReadChunk | src/StreamTransfer.cpp:138-150 | reading and deducting is the machine's read, and touches nothing else |
| StreamTransfer.TransferState.WriteReturned | src/StreamTransfer.cpp:152-162 | what follows `WriteBody` is the machine's step |
| StreamTransfer.TransferState.RunStarted | src/StreamTransfer.cpp:169-184 | the posted start of a transfer, empty or not, is the machine's step |
| StreamRuns.WriterOutlivesFrames | src/StreamTransfer.cpp:98-111 | the writer is owned at every point of a run at which a frame is active or a callback installed, if and only if the run has no step at which the cleanup cannot be posted while a frame is below `finish` or a callback installed |
| StreamRuns.PostedRunsKeep | src/StreamTransfer.cpp:102-110 | a run in which every post succeeds has no such step |
| StreamRuns.StepKeepsWriter | src/StreamTransfer.cpp:98-120 | one step loses the writer exactly if it is such a step |
| StreamRuns.FailedPostReleasesEarly | src/StreamTransfer.cpp:108-110 | with a failed post the writer can be given up while the pump is in `End` |
| CooperativeRuns.CooperativeWriterCompletes | src/StreamTransfer.cpp:122-184 | in every run in which the peer stays connected and drained, reads are full, no call is refused and posts succeed, in any order and with any nesting of `onwrite`, no failure is ever reported, at most 2 * length + 14 steps do anything, and the run comes to a stop only when the transfer has completed with true, is destroyed and has given up the writer |
| CooperativeRuns.StepWorks | src/StreamTransfer.cpp:130-166 | each step of such a run that does anything decreases a bound on the work left |
| CooperativeRuns.CompletionCanBeReached | src/StreamTransfer.cpp:122-184 | from every state of such a run, completion can still be reached |
| TransferStats.StatsAreConserved | include/intertwine/fw/IFileTransfer.hpp:17-42 | over any interleaving of transfers, the active count is started minus ended, the error count the transfers ended as failed, and the totals cover the started ones |
| TransferStats.StepReportsOnce | src/StreamTransfer.cpp:113-120 | a step of a transfer reports nothing or the one end of a started, unended transfer |
| TransferStats.Stats.Start | include/intertwine/fw/IFileTransfer.hpp:29-34 | `recordStart` counts the transfer and its bytes and makes it active |
| TransferStats.Stats.End | include/intertwine/fw/IFileTransfer.hpp:35-41 | `recordEnd` makes it inactive and counts a failure |
| Router.ResponseEndsOnce | src/Router.cpp:89-111 | with a handler that does not throw, `End` is called at most once across route and transfer, and exactly once if the transfer completes with true |
| Router.EndsOnceUnlessOverreached | src/Router.cpp:89-111 | for any handler, `End` is called at most once if and only if it is not the case that the handler threw after the handoff, the task then found the response not begun, and the transfer ended it too; without the first two, exactly once if the transfer completes with true |
| Router.RouteEndsTheRest | src/Router.cpp:99-110 | a task whose handler is through ends the response itself exactly if it finds it not begun and either the handler threw or nothing was handed off |
| Router.TaskGoesOn | src/Router.cpp:89-102 | a dispatched task gets to its handler, a handler to its one transfer and to its return or exception |
| Router.TrackerBalances | src/Router.cpp:87-110 | each finished task has given the tracker one +1 and one -1, thrown or not |
| Router.ThrowingHandlerCanEndTwice | src/Router.cpp:91-109 | a handler that throws after the handoff makes two calls of `End` possible |
| Router.AsyncTask.Complete | src/Router.cpp:99-110 | the end of the task is the machine's step |
| WriterLoopCall.ReturnValueTellsTheTruth | src/LegacyTransfer.cpp:77-122 | in every interleaving, true means the callback ran to completion exactly once before the return, false that it never runs, before or after; it never runs after the return |
| WriterLoopCall.WakeDecides | src/LegacyTransfer.cpp:108-121 | a wake-up gives up exactly if it is a timeout before the loop has started, and returns true exactly if the loop has finished |
| WriterLoopCall.AnswersAtOnce | src/LegacyTransfer.cpp:78-106 | without a loop, or if the post fails, the call returns false and never runs the callback; on the loop's own thread it returns true and has run it |
| WriterLoopCall.LoopCarriesOut | src/LegacyTransfer.cpp:88-121 | from every state, a loop that has time finishes the posted event, having run the callback exactly if the worker has not given up, and a worker that has not returns true at its next step |
| WriterLoopCall.SyncWriterCall.constructor | src/LegacyTransfer.cpp:44-45 | a new call is neither started nor done |
| WriterLoopCall.SyncWriterCall.BeginRun | src/LegacyTransfer.cpp:90-94 | the loop's first critical section is the machine's step |
| WriterLoopCall.SyncWriterCall.EndRun | src/LegacyTransfer.cpp:98-102 | the loop's second critical section is the machine's step |
| WriterLoopCall.SyncWriterCall.Woken | src/LegacyTransfer.cpp:109-121 | one round of the waiting loop is the machine's step |
| LegacyTransfer.WaitForRoom | src/LegacyTransfer.cpp:251-275 | the wait sleeps exactly as long as it finds more than 4 MiB pending and the peer connected, at most 6000 times, and times out exactly at the 6000th; it succeeds exactly if it has not timed out and the last question was delivered and found the peer connected |
| LegacyTransfer.SendChunk | src/LegacyTransfer.cpp:276-289 | one turn writes the next slice of the file, as long as asked for (at most 256 KiB), ready and there; it goes on with less remaining if the writer takes it, and otherwise stops, for one of the listed reasons, with nothing deducted; the pending buffer afterwards |
| LegacyTransfer.WriteChunk | src/LegacyTransfer.cpp:280-289 | the chunk is given to the writer, and either taken and deducted, or the loop has a reason to stop and deducts nothing; the pending buffer afterwards |
| LegacyTransfer.SendChunks | src/LegacyTransfer.cpp:246-290 | the loop terminates; the chunks written are consecutive slices from the start of the range, each but perhaps the last one taken by the writer, and what was taken plus what remains is the requested length; nothing remaining means all was taken, and something remaining that a read fell short, a call failed, the peer left, the writer refused or the wait timed out; at most 6000 sleeps a chunk, and at most 4 MiB + 256 KiB pending after each write |
| LegacyTransfer.WritingKeepsGoing | src/LegacyTransfer.cpp:280-289 | writing a chunk keeps these accounts, whether it is taken or not |
| LegacyTransfer.Transfer.Send | src/LegacyTransfer.cpp:141-295 | which inputs lead to which of the answers, and what each holds; each exit but the throwing one ends the statistics and completes once with the returned flag, which is true for a body, for `serveFile` whatever it did, and for a stream with nothing remaining |
| LegacyTransfer.ReadSmallRange | src/LegacyTransfer.cpp:157-175 | the exits of the path for a small range: the body exactly if the file can be read that far, the exception exactly for a negative length of a readable file, an error otherwise |
| LegacyTransfer.SuccessDeliversIff | src/LegacyTransfer.cpp:156-294 | for all inputs, a true completion has delivered the part of the file that was asked for if and only if: a small range or a stream, always; where `serveFile` is used, its path has no two dots in a row and the file loads with the length asked for; a large range without a writer, all bytes missed are zeros in the file |
| LegacyTransfer.ServeFile | src/Context.cpp:131-143 | the scan for two dots in a row refuses the path, and otherwise the outcome of loading the file is what the response gets |
| LegacyTransfer.MissingFileIsReportedSent | src/LegacyTransfer.cpp:176-182 | a small file that does not exist is reported as sent, with a writer or without |
| LegacyTransfer.RefusedPathIsReportedSent | src/LegacyTransfer.cpp:176-182 | a file whose path is refused is reported as sent |
| LegacyTransfer.BackwardRangeThrows | src/LegacyTransfer.cpp:144-161 | a range that ends before it starts throws |
| LegacyTransfer.FallbackDelivers | src/LegacyTransfer.cpp:187-202 | without a writer the body is the range if and only if the bytes not read are zeros in the file; the whole range is read if and only if the file opens, can be positioned, reaches that far and has the bytes ready |
| LegacyTransfer.FallbackCanMissTheFile | src/LegacyTransfer.cpp:187-202 | a large range of a file with nothing ready is reported as sent without a writer, and not delivered |
| LegacyTransfer.Transfer.Report | src/LegacyTransfer.cpp:293-294 | `recordEnd` and `onComplete` get the same flag |
| SPSCMachine.Linearizable | include/intertwine/fw/SPSCQueue.inl:34-82 | every interleaving of one producer and one consumer is a history of a FIFO of at most capacity - 1 items, each call taking effect between its start and its return; a refused push saw it full, a failed pop saw it empty |
| SPSCMachine.PrefixAndCounters | include/intertwine/fw/SPSCQueue.inl:34-82 | the accepted items are the popped ones followed by those in the ring; the push, pop and drop counts are the numbers of accepted, delivered and refused items up to the calls in flight, and push count minus pop count is the length up to these, all modulo 2^64 |
| SPSCMachine.FifoDeliversInOrder | include/intertwine/fw/SPSCQueue.inl:34-82 | in a legal history the items popped are a prefix of the items accepted, and the rest is queued, within the bound |
| SPSCMachine.ChecksAreExact | include/intertwine/fw/SPSCQueue.inl:36-49 | at the read of the other position, the test for full or empty is exact at that moment; a producer with room writes to no queued slot and not to the one being read |
| SPSCMachine.StepKeeps | include/intertwine/fw/SPSCQueue.inl:34-82 | every step of either thread keeps the invariant of ring, calls and counters |
| SPSCMachine.NextPosIsSuccessor | include/intertwine/fw/SPSCQueue.inl:37 | `(i + 1) & m_mask` is the successor modulo a power-of-two capacity |
| SPSCMachine.FullTest | include/intertwine/fw/SPSCQueue.inl:40 | the next write position meets the read position exactly if capacity - 1 items are queued |
| SPSCMachine.WriteSlotIsFree | include/intertwine/fw/SPSCQueue.inl:45 | with room, the slot at the write position holds no queued item, and writing it changes none |
| SPSCMachine.Ring.Size | include/intertwine/fw/SPSCQueue.inl:92-101 | `size()` computed from any two positions in range is below the capacity, and 0 exactly if they are equal |
| SPSCQueue.NextPowerOfTwo | include/intertwine/fw/SPSCQueue.inl:116-128 | the loop terminates with the least power of two at or above n, for n up to 2^63; 1 for 0 |
| SPSCQueue.DoublingReaches | include/intertwine/fw/SPSCQueue.inl:123-126 | on 64-bit words the doubling reaches n if and only if n is at most 2^63 |
| SPSCQueue.PushAloneMeans | include/intertwine/fw/SPSCQueue.inl:34-49 | a push that no pop interleaves appends its item exactly if fewer than capacity - 1 are queued |
| SPSCQueue.PopAloneMeans | include/intertwine/fw/SPSCQueue.inl:69-82 | a pop that no push interleaves removes the oldest item exactly if there is one |
| SPSCQueue.SPSCQueue.constructor | include/intertwine/fw/SPSCQueue.inl:13-25 | the queue is empty and its capacity the least power of two at or above the requested one |
| SPSCQueue.SPSCQueue.Push | include/intertwine/fw/SPSCQueue.inl:35-49 | the method is the machine's push and appends exactly if there is room |
| SPSCQueue.SPSCQueue.Pop | include/intertwine/fw/SPSCQueue.inl:69-82 | the method is the machine's pop and returns the oldest item exactly if there is one |
| SPSCQueue.SPSCQueue.Empty | include/intertwine/fw/SPSCQueue.inl:85-89 | true exactly if nothing is queued |
| SPSCQueue.SPSCQueue.Size | include/intertwine/fw/SPSCQueue.inl:92-101 | the number of queued items |
| SPSCQueue.SPSCQueue.Clear | include/intertwine/fw/SPSCQueue.inl:109-113 | the queue ends up empty, and each dropped item is counted as popped, modulo 2^64 |
| Base64.UrlRoundTrip | src/JwtUtil.cpp:27-112 | decoding an encoded byte string gives it back |
| Base64.UrlAlphabet | src/JwtUtil.cpp:46-57 | the encoding uses only the alphabet of section 5 of RFC 4648, without padding, and has the length of that encoding |
| Base64.UrlOfPad | src/JwtUtil.cpp:46-56 | translating the padded form and dropping `=` gives the url form |
| Base64.PadOfUrl | src/JwtUtil.cpp:61-72 | the reverse translation and padding restores the padded form |
| Base64.EncodeUrl | src/JwtUtil.cpp:27-58 | shifts, masks, translation and stripping compute the url encoding |
| Base64.DecodeUrl | src/JwtUtil.cpp:60-112 | translation, padding and the table decoder compute the decoding, for any input |
| Base64.PadRoundTrip | src/PasswordUtil.cpp:15-73 | the padded coders are inverse on every byte string |
| Base64.DecodesEncodedPrefix | src/PasswordUtil.cpp:56-71 | the decoder gives back an encoded prefix and goes on behind it |
| Base64.DecodesGroups | src/PasswordUtil.cpp:56-71 | decoding any text group by group: it stops at a group whose first two characters are not both in the alphabet, and otherwise gives the leading bytes of the 24 bits of the group, one, two or three as its third and fourth characters allow |
| Base64.ValueMeans | src/PasswordUtil.cpp:36-53 | the decode table rejects exactly the characters outside the alphabet and `=`, inverts the alphabet, and reads `=` as 0 |
| Base64.StopsAtBadGroup | src/PasswordUtil.cpp:56-63 | what follows an encoded text is ignored from the first bad group on |
| Base64.EncodePadded | src/PasswordUtil.cpp:15-33 | the encoder's loop computes the encoding of section 4 of RFC 4648 |
| Base64.DecodePadded | src/PasswordUtil.cpp:35-73 | the decoder's loop computes the decoding, for any input |
| Base64.DecodeGroup | src/PasswordUtil.cpp:64-70 | the shifts and masks put the bytes of one group together |
| Base64.GroupBits | src/JwtUtil.cpp:34-44 | the shifts and masks pick the four sextets of a group |
| JwtToken.CheckSignature | src/JwtUtil.cpp:140-162 | true exactly if the token has three dot-free parts of which the last signs the others |
| JwtToken.Verify | src/JwtUtil.cpp:140-184 | accepts exactly the authentic, unexpired tokens not issued before the start time and not revoked |
| JwtToken.PartsAreUnique | src/JwtUtil.cpp:142-155 | where the dots are determines the three parts of a token |
| JwtToken.GetTime | src/JwtUtil.cpp:193-251 | reads the number after the named field of the decoded payload, 0 if there is none |
| JwtToken.ScanField | src/JwtUtil.cpp:204-220 | the scanner's loop finds the name, the colon and the digits |
| JwtToken.PayloadFields | src/JwtUtil.cpp:128-130 | both scanners read back what the payload printer has printed, a negative time as 0 |
| JwtToken.SignedText | src/JwtUtil.cpp:124-138 | the signed token has three parts without a dot: the first decodes to `{"alg":"HS256","typ":"JWT"}`, the second to `{"sub":"admin","iat":`, the time, `,"exp":`, the expiry and `}`, and the third is the encoded HMAC of the first two |
| JwtToken.ScannerMeans | src/JwtUtil.cpp:204-220 | of any payload the scanners read the digits behind the first occurrence of the name, the first colon from there and any blanks and tabs, 0 if there are none or they exceed 64 bits |
| JwtToken.ScannerMisses | src/JwtUtil.cpp:204-211 | without the name, or a colon behind it, the field reads as 0 |
| JwtToken.FewDotsReadZero | src/JwtUtil.cpp:194-201 | a token with fewer than two dots has both times 0 |
| JwtToken.SignedTimes | src/JwtUtil.cpp:124-138 | `getIat` and `getExp` of a signed token return the times it was signed with |
| JwtToken.Sign | src/JwtUtil.cpp:124-138 | the method computes the signed token |
| JwtToken.SignedTokenAccepted | src/JwtUtil.cpp:124-184 | a token signed at any t0 is accepted at t1 exactly if its expiry is positive and later than t1, the start time or t0 is not positive or the start time is at most t0, and it is not revoked |
| JwtToken.OneTokenPerInput | src/JwtUtil.cpp:154-162 | at most one token is authentic for a signing input and a secret |
| JwtBlacklist.VerifyIgnoresPurging | src/JwtUtil.cpp:140-184 | after any run with a steady clock, truthful loads and no eviction, `verify` answers as with a never-purged set of all revoked tokens |
| JwtBlacklist.RevokeAgreesIff | src/JwtUtil.cpp:257-291 | one revocation keeps that agreement if and only if the list has room, or its only evicted entry is the revoked token's own |
| JwtBlacklist.EvictedTokenIsAcceptedAgain | src/JwtUtil.cpp:272-282 | with a limit of one, a second revocation makes the first token acceptable again |
| JwtBlacklist.RevokeBoundsTheList | src/JwtUtil.cpp:257-291 | with a positive limit and a nonzero exp, the list afterwards is ordered, within the limit and contains the token; it is the unexpired old list less the least number of entries that makes room, none of which expires after one that is kept |
| JwtBlacklist.UnreadableIsIgnored | src/JwtUtil.cpp:258-261 | a token whose expiry cannot be read changes nothing and is not handed to the callback |
| JwtBlacklist.EvictionMeans | src/JwtUtil.cpp:272-282 | eviction terminates, splits the list into kept and evicted entries, evicts as few as possible, and the soonest to expire |
| JwtBlacklist.RestartRestores | src/JwtUtil.cpp:287-326 | loading what the callback stored makes the list agree with the ideal again, evictions included |
| JwtBlacklist.JwtUtil.CleanUp | src/JwtUtil.cpp:301-311 | exactly the expired entries go |
| JwtBlacklist.JwtUtil.FindOldest | src/JwtUtil.cpp:275-280 | finds the first of the soonest-expiring entries |
| JwtBlacklist.JwtUtil.MakeRoom | src/JwtUtil.cpp:273-282 | the eviction loop terminates and computes the eviction |
| JwtBlacklist.JwtUtil.Revoke | src/JwtUtil.cpp:257-291 | the method computes the new list and the entry handed to the callback |
| JwtBlacklist.JwtUtil.IsRevoked | src/JwtUtil.cpp:293-299 | the search by order, which stops at the first token not below the one asked for, finds exactly the listed tokens |
| JwtBlacklist.FoundByOrder | src/JwtUtil.cpp:293-299 | in an ordered list, the first entry not below a token tells whether the token is listed |
| JwtBlacklist.JwtUtil.LoadEntries | src/JwtUtil.cpp:318-326 | inserts the entries in order, keeping those already there |
| JwtBlacklist.JwtUtil.VerifyToken | src/JwtUtil.cpp:140-184 | `verify` over the object's own list and start time |
| Snowflake.PackIsLayout | src/IdUtil.cpp:87-90 | with a timestamp in range, the shifts and ors give the four fields side by side as one number |
| Snowflake.Decodes | src/IdUtil.cpp:87-90 | each id decodes back to its timestamp, counted from 946684800000, its datacenter, worker and sequence |
| Snowflake.GeneratorsAreDisjoint | src/IdUtil.cpp:87-90 | two generators with different datacenter or worker never produce the same id |
| Snowflake.NextSequence | src/IdUtil.cpp:54 | the masked increment wraps from 4095 to 0 |
| Snowflake.NextInNumbers | src/IdUtil.cpp:50-91 | for any clock within its range, the value returned is the layout of the new state, and 0 exactly if no id is issued |
| Snowflake.OverflowWaits | src/IdUtil.cpp:54-77 | a call that overflows its sequence issues an id if and only if one of five further readings has moved on and those before it stood still, and then it is the first id of that millisecond; otherwise it returns 0 and stays in the spent one |
| Snowflake.OtherwiseCounts | src/IdUtil.cpp:50-90 | any other call issues the next sequence number of the same millisecond or the first of another |
| Snowflake.CallMeans | src/IdUtil.cpp:50-91 | wherever the clock goes within its range, an id has been issued before if and only if its millisecond was used up to its sequence number or beyond |
| Snowflake.RepeatsByBranch | src/IdUtil.cpp:50-91 | that is: entering another millisecond repeats if and only if it was used before, staying in one if and only if the counter has started over, and waiting for one if and only if the one reached was used before |
| Snowflake.IdRepeatsIff | src/IdUtil.cpp:50-91 | the same for every run of a generator from its construction on |
| Snowflake.IdsAreUniqueIff | src/IdUtil.cpp:50-91 | the ids of a run are pairwise different if and only if no call of it repeats a sequence number in that way |
| Snowflake.NewUnlessRestarted | src/IdUtil.cpp:50-91 | with a clock that does not go back, an id exceeds all earlier ones if and only if the counter has not started over in the millisecond it stays in; otherwise it repeats one |
| Snowflake.IdsIncrease | src/IdUtil.cpp:50-91 | with a steady clock and no call returning 0, the ids strictly increase |
| Snowflake.TimeoutRepeatsId | src/IdUtil.cpp:54-77 | of 4098 calls in one millisecond, the last but one returns 0 and the last repeats an id |
| Snowflake.BackwardClockRepeatsId | src/IdUtil.cpp:52-84 | a clock that returns to a used millisecond makes the generator repeat an id |
| Snowflake.CreatesIff | src/IdUtil.cpp:36-41 | the constructor accepts exactly the ids from 0 to 31 |
| Snowflake.SnowflakeGenerator.constructor | src/IdUtil.cpp:30-42 | valid ids give a generator at sequence 0 that has seen no time |
| Snowflake.SnowflakeGenerator.NextId | src/IdUtil.cpp:50-91 | the method with its terminating wait loop is the step function |
| ThreadPool.TasksAreConserved | src/SupervisedThreadPool.cpp:40-124 | in every reachable state accepted tasks are the dequeued ones followed by the queued ones, in acceptance order; they partition into queued, held and ended; a positive limit bounds the queue |
| ThreadPool.SlotsAreConserved | src/SupervisedThreadPool.cpp:78-158 | each created slot either has a live thread and is nowhere else, or is in exactly one place: once among the finished ids or with the supervisor; only an ended thread is replaced |
| PoolProgress.TasksCanAllBeDone | src/SupervisedThreadPool.cpp:84-158 | from every state of a pool that has not been stopped, however many workers have died and wherever the supervisor is, every accepted task can still be carried out, without another death or submission |
| PoolProgress.WorkHelps | src/SupervisedThreadPool.cpp:84-158 | as long as a task is left, some step leaves fewer tasks, or brings the first slot nearer to a worker that takes one |
| ThreadPool.SubmitTestAdmitsIff | src/SupervisedThreadPool.cpp:41-43 | the first test of `submit` admits a task if and only if it is not empty and the pool runs, and changes nothing else |
| ThreadPool.SubmitMeans | src/SupervisedThreadPool.cpp:40-53 | a whole call puts the task last among the accepted and the queued ones if the pool runs and has room, and changes nothing otherwise |
| ThreadPool.SubmitAcceptsIff | src/SupervisedThreadPool.cpp:40-53 | an admitted task is accepted exactly if the queue is unlimited or has room, and is then last |
| ThreadPool.WorkerTakesOldest | src/SupervisedThreadPool.cpp:99-113 | a worker at the lock of a running pool takes the oldest accepted task not yet taken |
| ThreadPool.WorkerServes | src/SupervisedThreadPool.cpp:98-122 | on a running pool a worker takes the oldest queued task from the top of its loop, waits if there is none, and is at the top again after a task |
| ThreadPool.StopStops | src/SupervisedThreadPool.cpp:60-64 | `stop` clears the running flag of a started pool and nothing else |
| ThreadPool.StoppedForGood | src/SupervisedThreadPool.cpp:40-117 | after that, in every run, no task is admitted or dequeued any more |
| ThreadPool.StoppedThreadsLeave | src/SupervisedThreadPool.cpp:84-155 | each thread of a stopped pool leaves its loop at its next test, a worker by way of the finished ids and the supervisor without replacing anyone |
| ThreadPool.SupervisorRestarts | src/SupervisedThreadPool.cpp:126-157 | a finished slot the supervisor picks up has a live thread after its next four steps |
| ThreadPool.SupervisedThreadPool.Submit | src/SupervisedThreadPool.cpp:40-53 | accepts exactly a task that is not empty on a running pool with room, and then queues it last |
| ThreadPool.SupervisedThreadPool.LockedSubmit | src/SupervisedThreadPool.cpp:44-50 | the critical section of `submit` is the machine's step |
| ThreadPool.SupervisedThreadPool.LockedTake | src/SupervisedThreadPool.cpp:100-113 | the worker's critical section is the machine's step |
| ThreadPool.SupervisedThreadPool.LockedPushFinished | src/SupervisedThreadPool.cpp:78-82 | the exit guard's critical section is the machine's step |
| ThreadPool.SupervisedThreadPool.LockedTakeFinished | src/SupervisedThreadPool.cpp:130-143 | the supervisor's critical section is the machine's step |
| PasswordUtil.ParsePrinted | src/PasswordUtil.cpp:94-140 | for positive int iterations and nonempty salt and hash, parsing a printed record recovers all three |
| PasswordUtil.ParsesIff | src/PasswordUtil.cpp:107-140 | a text is read as a record if and only if it is the prefix, a positive int iteration count, a salt text and a hash text, with a separator between them, and both texts decode to something |
| PasswordUtil.MatchesIff | src/PasswordUtil.cpp:106-166 | a password matches a text if and only if the text holds such a record and the password derives its hash |
| PasswordUtil.PrintedText | src/PasswordUtil.cpp:94-99 | the text printed by `hash` is `$pbkdf2-sha256$310000$`, the encoded salt, a separator and the encoded key |
| Text.NumberMeans | src/PasswordUtil.cpp:128 | `std::stoi` reads a number behind white space and a sign up to the first character that is no digit, if there is a digit and the value is in range |
| PasswordUtil.ConstantTimeEqual | src/PasswordUtil.cpp:160-165 | the xor-accumulate loop decides equality |
| PasswordUtil.Verify | src/PasswordUtil.cpp:106-166 | true exactly if the text parses and the derived bytes equal the stored ones, for any text |
| PasswordUtil.RecordMatches | src/PasswordUtil.cpp:106-166 | a printed record matches exactly the passwords that derive its hash |
| PasswordUtil.HashVerifies | src/PasswordUtil.cpp:75-166 | what `hash` prints verifies with its password, and with another one exactly if both derive the same key |
| PasswordUtil.Hash | src/PasswordUtil.cpp:75-99 | the printed record of the derived key, empty if deriving fails |
| HttpHeaders.ParsePrintParse | src/HttpTransport.cpp:114-152 | printing and parsing again what any text parses to changes nothing |
| HttpHeaders.PrintThenParse | src/HttpTransport.cpp:114-152 | printing then parsing is the identity on normalised maps |
| HttpHeaders.ParseNormalizes | src/HttpTransport.cpp:114-143 | parsing into a normalised map gives a normalised map: trimmed lower-case colon-free keys, trimmed nonempty values, no line breaks |
| HttpHeaders.LineMeans | src/HttpTransport.cpp:128-140 | any line: without a colon it changes nothing; otherwise what is on the right of the first colon, trimmed, is assigned to what is on its left, trimmed and in lower case, unless one is empty |
| HttpHeaders.FieldMeans | src/HttpTransport.cpp:128-140 | white space around a name and a value does not matter, nor does its absence |
| HttpHeaders.TrimTakes | src/HttpTransport.cpp:133-134 | trimming takes off all the white space at both ends and nothing else |
| HttpHeaders.LowerMeans | src/HttpTransport.cpp:138 | the capital letters become lower-case ones and other characters stay |
| HttpHeaders.LineEnds | src/HttpTransport.cpp:120-121 | a carriage return and a line feed each end a line |
| HttpHeaders.TextMeans | src/HttpTransport.cpp:114-143 | a text is read line by line |
| HttpHeaders.LastLineWins | src/HttpTransport.cpp:128-140 | names are compared without case, the last line for a name wins and leaves other names alone |
| HttpHeaders.AssignMeans | src/HttpTransport.cpp:139 | assigning sets one key and leaves the others |
| HttpHeaders.ParseHeaders | src/HttpTransport.cpp:114-143 | the parser's loop computes the parse, for any text and any map |
| HttpHeaders.BuildHeadersString | src/HttpTransport.cpp:145-152 | the printer's loop computes the text |
| HttpHeaders.PrintsInOrder | src/HttpTransport.cpp:148-150 | the text printed is one line after the other, each a key, a colon, a blank, a value and a line break |
| Text.LessIff | src/HttpTransport.cpp:145-148 | the order of the keys is the lexicographic one |

## Left out

- libhv, OpenSSL, Boost and spdlog: the writer and the event loop are nondeterministic, HMAC-SHA256 and PBKDF2 are arbitrary functions, and logging is not modelled.
- Response headers and status texts, `safeFilenameForHeader` and content types: header plumbing without state.
- `AccelTransfer`, the transfer factory, the TCP, HTTP client and WebSocket transports, `Application`, middleware, `FlowController`, loggers, certificates and configuration: I/O and wiring.
- `LegacyTransfer.ServeFile`: how libhv loads the file is not part of the sources; it loads what is ready of a file that opens.
- Memory ordering weaker than sequential consistency: the atomic accesses of the ring buffer and of `m_running` interleave one at a time.
- The overload `push(T&&)`: the same steps as `push(const T&)`, with a move for the copy.
- `size()` and `empty()` while the other thread is inside a call: `SPSCMachine.Ring.Size` bounds what any two positions give, and the object methods cover the quiescent case.
- The overflow of the int64 counters of `TransferStats`, which are unbounded integers here, and `totalDurationMs`, which depends on the clock.
- Exceptions thrown by `onComplete` and by the callbacks of `runOnWriterLoopSync`: the source assumes there are none.
- A seek on a file of `StreamTransfer` whose start lies behind its end succeeds and reads nothing, as with `std::ifstream`; other stream error states are the event that a read falls short.
- `LegacyTransfer.SendChunks`: nobody else writes to the connection meanwhile, and a refused write adds nothing to the pending buffer.
- `ThreadPool`: termination of `stop`, which notifies without the mutexes, and a second `start`, which keeps old finished ids, are not claimed; `pushFinished` is assumed not to fail, and an empty task is refused at once.
- `JwtBlacklist`: each public call is atomic; `verify` reads the clock before it takes the lock, so finer interleavings are not covered. The persistence callback only stores what it is given.
- `extractBearer`, setters and getters of `JwtUtil` and `IdUtil`, and the builds without OpenSSL: one-line facts.
- The derivation of Snowflake ids from host and thread, UUIDs and the global generator: operating-system input.
- `HttpHeaders.ParseHeaders`: adjacent line breaks are not merged while splitting; this only yields empty lines, which the parser skips.
