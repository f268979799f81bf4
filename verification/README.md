# A verified model of the ACP connection runtime and its neighbours

The project models the parts of the Faktor repository in which correctness depends on many steps
taken together, and proves what holds over all of them.

- **Connection runtime** (`SessionRegistry.dfy`, `Runtime.dfy`, `RuntimeGuarantees.dfy`,
  `RequestCancellation.dfy`, `CancelCauses.dfy`, `TurnUpdates.dfy`). A reader fires cancels, a dispatcher admits prompts, one operation
  task runs per turn, and everything they say goes on one main queue. The registry is a class whose methods are the lock sections; the
  connection is a labelled step system in which each lock section, queue push and queue pop is one
  step. Backends may return, fail, panic or overstay a cancel, and the writer may die at any point.
  Cancel tokens are allocation numbers and a fired token stays fired, so any number of cancels is
  one. Results hold for every run: one answer per prompt, order per session, no overlapping turns,
  the exact capacity bound, and what a cancel can and cannot change.
- **Writer and outstanding requests** (`Writer.dfy`, `WriterProgress.dfy`, `Outstanding.dfy`). The
  two queues merged by the writer, and the table of server-to-client requests with its wrapping ids.
- **Wire framing** (`Framing.dfy`, `FrameCodec.dfy`, `FramePrinter.dfy`, `FrameReader.dfy`,
  `HeaderLines.dfy`, `HeaderValue.dfy`, `FrameOutcomes.dfy`, `Delivery.dfy`). Both framings on bytes, their printers, and the reader loop with autodetection.
  The header form is that of the Language Server Protocol 3.17, section "Base Protocol". The JSON
  codec is an arbitrary decoder.
- **Event stream client** (`EventStream.dfy`, `EventFrames.dfy`). Line splitter, frame assembler and resume cursor over
  any number of broken connections, against a server that replays a journal.
- **Loop detectors** (`LoopDetection.dfy`). Four online detectors, each equal to a predicate over
  its whole history.
- **Attempt accounting** (`AttemptAccounting.dfy`), **tool-call extraction** (`ToolScan.dfy`,
  `ToolRepair.dfy`, `ToolJson.dfy`, `RepairedCalls.dfy`) and the **transcript reducer**
  (`Transcript.dfy`, `TranscriptEvents.dfy`).

`dafny verify dfyconfig.toml` checks everything.

## Where the code does less than its documentation suggests

- A promoted prompt cannot be cancelled by its own request id: promotion replaces the token but
  keeps the id of the prompt that opened the busy period. The comment at
  `crates/acp/src/lib.rs:2717-2722` describes running turns in general; the model follows the code
  (`CancelByOwnIdExactly`, `PromotedPromptKeepsOldRequestId`).
- The eviction scan is described as leaving at most its target of sessions. Every removal also
  shrinks the bound on its visits, so it may stop above the target with an idle session left
  (`MakeRoomReachesTargetExactly`, `IdleSessionSurvives`). The capacity bound holds nevertheless.
- Until a byte other than white space arrives the reader parses in `Content-Length` mode, so what
  precedes a JSON stream can produce an error in one chopping and none in another
  (`AutodetectionExactly` gives the condition, `AutodetectionDependsOnReads` an instance).
- The size caps are checked only while no terminator is present (`ChunkIndependenceExactly`).
- A heartbeat id at or beyond the next journal id makes the client skip that entry for good
  (`HeartbeatIsSafeExactly`, `PassedEntriesAreLost`). Ids no larger than ids already sent are safe.
- The trailing-comma pass knows no strings and writes each byte as a character of its own: a string,
  of either kind, that holds a comma before a closing bracket loses it, text that is not ASCII is
  garbled, and one pass leaves a comma behind when two stand in a row (`StripOnlyRemovesExactly`,
  `StringLosesComma`, `SingleQuotedLosesComma`, `OnePassRemovesAllExactly`).
- The quote pass breaks up a single-quoted string that holds an unprotected double quote
  (`PassesKeepStringsExactly`, `BareDoubleBreaksString`).
- The blob scanner starts at the marker rather than at the opening bracket, so prose between the two
  that opens a string or closes a bracket sends it astray. A call may then be lost with the text that
  is skipped, or be returned twice (`BlobEndsWithRegionExactly`, `SecondCallIsLost`,
  `OneCallReturnedTwice`), and the cut may fall inside a character, where the slice panics
  (`CutFallsOnBoundaryExactly`, `CutInsideCharacter`).
- A durable page is turned into a transcript without merging equal ids (`PageIsWellFormedExactly`).

## Model

| member | source | states |
|---|---|---|
| SessionRegistry.Registry.EvictIdleTo | crates/acp/src/lib.rs:2740-2757 | the rotating scan loop leaves exactly the sessions and rotation of the specified scan |
| SessionRegistry.Registry.AdmitPrompt | crates/acp/src/lib.rs:2685-2715 | one `admit` takes the registry to the specified next state and gives the specified answer |
| SessionRegistry.Registry.FinishTurn | crates/acp/src/lib.rs:2762-2783 | one `finish` takes the registry to the specified next state and returns the promoted job and fresh token, if any |
| SessionRegistry.Registry.Cancel | crates/acp/src/lib.rs:2656-2669 | fires the token of the running turn of that session and nothing else; reports whether there was one |
| SessionRegistry.Registry.CancelAll | crates/acp/src/lib.rs:2671-2678 | fires exactly the tokens of all running turns |
| SessionRegistry.Registry.CancelRequest | crates/acp/src/lib.rs:2723-2735 | fires the token of a running turn with that request id if there is one, and otherwise changes nothing |
| SessionRegistry.EvictKeeps | crates/acp/src/lib.rs:2740-2757 | the bounded scan never drops an active session nor the newly pushed key, and keeps the rotation a duplicate-free listing of the tracked keys |
| SessionRegistry.EvictNothingMeansAllActive | crates/acp/src/lib.rs:2740-2757 | a scan that removes nothing and misses its target has met only active sessions |
| SessionRegistry.MakeRoomReachesTargetExactly | crates/acp/src/lib.rs:2737-2757 | the bounded scan leaves at most `target` sessions if and only if there were no more or, of the first `target` + 1 in the rotation, at least as many are idle as there are too many |
| SessionRegistry.IdleSessionSurvives | crates/acp/src/lib.rs:2737-2757 | a sequence of calls after which the scan stops above its target although an idle session is left |
| SessionRegistry.MakeRoomBound | crates/acp/src/lib.rs:2685-2693 | making room for a new key keeps the number of tracked sessions within the limit plus one |
| SessionRegistry.AdmitKeeps | crates/acp/src/lib.rs:2685-2715 | `admit` keeps the registry well formed: exact turn counter, rotation a permutation of the keys, distinct tokens |
| SessionRegistry.AdmitVerdict | crates/acp/src/lib.rs:2679-2715 | exactly when each of the four answers is given, what it does to that session, and that no other session's turn is disturbed |
| SessionRegistry.FinishKeeps | crates/acp/src/lib.rs:2762-2783 | `finish` with any token keeps the registry well formed and within capacity |
| SessionRegistry.FinishVerdict | crates/acp/src/lib.rs:2759-2783 | with the current token it promotes the queued prompt under a new unfired token exactly when there is one, and otherwise parks the session |
| SessionRegistry.CapacityOverAllRuns | crates/acp/src/lib.rs:2627-2783 | after any sequence of calls: counter = number of running turns, rotation = permutation of the keys, at most the limit of turns and limit + 1 sessions |
| Runtime.OneTaskPerTurn | crates/acp/src/lib.rs:2903-2953 | while the writer lives, the sessions with a running turn are exactly those served by a task, one task each, holding the turn's token |
| Runtime.OwnershipStep | crates/acp/src/lib.rs:2853-2953 | every step of reader, dispatcher, task and backend keeps each task the sole owner of its session's turn |
| Runtime.FifoStep | crates/acp/src/lib.rs:2853-2953 | every step keeps: per session, responses so far followed by the running and queued prompts are the prompts routed there, in order |
| Runtime.SequencedStep | crates/acp/src/lib.rs:2915-2951 | every step keeps the frames of a session turn by turn with the terminal response last |
| Runtime.InvariantStep | crates/acp/src/lib.rs:1915-2050 | every step of every role keeps the whole invariant |
| Runtime.RunKeepsInvariant | crates/acp/src/lib.rs:1915-2050 | the invariant holds after every run |
| RuntimeGuarantees.AtMostOneResponse | crates/acp/src/lib.rs:2853-2953 | in every run the responses answer, as a multiset, part of the prompts received: no prompt is answered twice, whatever fails or panics |
| RuntimeGuarantees.PromptsAreConserved | crates/acp/src/lib.rs:2853-2953 | with the writer alive, prompts received = answered + unanswered tasks + queued + about to be refused + not yet dispatched, at every step |
| RuntimeGuarantees.ExactlyOneResponseAtQuiescence | crates/acp/src/lib.rs:2853-2953 | at quiescence the responses are exactly the prompts received, and per session in the same order |
| RuntimeGuarantees.SessionAnswersInOrder | crates/acp/src/lib.rs:2915-2951 | the responses of a session leave in the order its prompts were admitted |
| RuntimeGuarantees.TurnsNeverOverlap | crates/acp/src/lib.rs:2762-2783 | turns of one session never overlap and every task holds its session's token |
| RuntimeGuarantees.FinishFindsItsOwnTurn | crates/acp/src/lib.rs:2762-2783 | the "newer turn" branch of `finish` is unreachable; the promoted prompt runs under an unfired token |
| RuntimeGuarantees.CapacityHolds | crates/acp/src/lib.rs:2685-2757 | the capacity bound and the exact counter hold in every interleaving |
| RuntimeGuarantees.TerminalClosesTurn | crates/acp/src/lib.rs:2915-2951 | all updates of a turn precede its terminal response, which precedes every frame of later turns of the session |
| RuntimeGuarantees.CancelDecidedAtTheFinalCheck | crates/acp/src/lib.rs:1658-1722 | for a backend that returns, the turn is answered `cancelled` exactly when its token had fired at the final check; later cancels change nothing |
| RuntimeGuarantees.CancelledOnlyIfFired | crates/acp/src/lib.rs:1658-1722 | a `cancelled` answer means the token had fired, however the turn ended |
| RuntimeGuarantees.SilenceAfterCancel | crates/acp/src/lib.rs:1344-1369 | after the token fires at most one more update of the turn is queued, and none unless an emit had passed its check |
| CancelCauses.CancelSessionFires | crates/acp/src/lib.rs:2656-2669 | a cancel of a session by its id fires exactly the token of its running turn, and nothing if it has none |
| CancelCauses.CancelEverythingFires | crates/acp/src/lib.rs:2671-2678 | cancelling everything fires exactly the tokens of the running turns |
| CancelCauses.FiredExactlyIfHit | crates/acp/src/lib.rs:2656-2735 | in every run the token of a running turn has fired if and only if, since its creation, its session was cancelled by its id, with all others, or by a request id that hit it |
| CancelCauses.CancelledExactlyIfHit | crates/acp/src/lib.rs:1658-1722 | a turn whose backend returns is answered `cancelled` if and only if such a cancel lies between the creation of its token and the return, and `completed` if and only if none does and the backend succeeded |
| CancelCauses.OverstayOrPanicAnswered | crates/acp/src/lib.rs:1658-1722 | a turn that overstays the grace period is answered `cancelled`, and was cancelled; one whose backend panics is answered as panicked, cancelled or not |
| TurnUpdates.UpdatesAreThoseEmitted | crates/acp/src/lib.rs:1344-1369 | the updates of a running turn on the main queue are exactly those its backend began and pushed, in that order |
| RequestCancellation.CancelByOwnIdExactly | crates/acp/src/lib.rs:2717-2735 | if ids are not reused, cancelling a running prompt by its own id fires exactly its token when its turn was started by admission, and nothing when it was promoted |
| RequestCancellation.CancelByOpenerId | crates/acp/src/lib.rs:2723-2735 | whatever ids are reused, cancelling by the id of the prompt that opened a busy period fires exactly that turn, if no other running turn carries the id |
| RequestCancellation.OpenersAreDistinct | crates/acp/src/lib.rs:2706-2715 | if ids are not reused, no two running turns carry the same one |
| RuntimeGuarantees.PromotedPromptKeepsOldRequestId | crates/acp/src/lib.rs:2771-2776 | a reachable state in which a promoted prompt runs, a cancel by its own id hits nothing and one by the answered prompt's id hits it |
| Writer.WireIsAMerge | crates/acp/src/lib.rs:2238-2295 | the wire is an order-preserving merge of both queues with nothing lost; a clean end means everything was written |
| Writer.AcknowledgementOvertakenAtMostOnce | crates/acp/src/lib.rs:2238-2295 | a queued cancel acknowledgement is overtaken by at most one main frame whose write begins after it was queued, and only by earlier acknowledgements |
| WriterProgress.WriterCatchesUp | crates/acp/src/lib.rs:2238-2295 | while nobody pushes and no write fails, at most five steps pass between two writes as long as a frame waits, so all that was pushed gets written |
| WriterProgress.WriterEnds | crates/acp/src/lib.rs:2238-2295 | with every sender gone and nothing left, the writer ends within five steps |
| WriterProgress.EverythingIsWritten | crates/acp/src/lib.rs:2238-2295 | from every reachable state of a writer that has not failed: left alone it writes everything pushed, in order, and ends if every sender is gone, within a stated number of steps |
| Delivery.QueuedMessagesArrive | crates/acp/src/lib.rs:2238-2295 | printers, writer and parsers together: after a clean end a peer reading any chunks receives exactly the queued messages, each queue in order |
| OutstandingRequests.ScanFindsFree | crates/acp/src/lib.rs:1018-1040 | the bounded scan from any id, with 64-bit wrap-around, ends on a free positive id (pigeonhole) |
| OutstandingRequests.RegisterGivesFreshId | crates/acp/src/lib.rs:1018-1040 | `register` refuses exactly at the cap and otherwise returns an id >= 1 that is not outstanding |
| OutstandingRequests.ResolvedAtMostOnce | crates/acp/src/lib.rs:1018-1071 | in every run each registration is resolved at most once and the cap is never exceeded |
| OutstandingRequests.AnsweredExactly | crates/acp/src/lib.rs:1018-1071 | in every run a request is answered if and only if the first call that ends its wait is a response under its id while it listens; other ids and registrations never disturb it |
| OutstandingRequests.Outstanding.RegisterRequest | crates/acp/src/lib.rs:1018-1040 | the scanning loop computes the specified registration |
| OutstandingRequests.Outstanding.ResolveRequest | crates/acp/src/lib.rs:1042-1053 | delivers to the matching waiter and removes it; succeeds exactly when the id was outstanding and still listened to |
| Framing.FindIsFirst | crates/acp/src/protocol.rs:472-480 | the terminator found is the first occurrence, and none is reported only if there is none |
| Framing.FindInPrefix | crates/acp/src/protocol.rs:472-480 | cutting a buffer anywhere moves no terminator |
| Framing.ReadHeader | crates/acp/src/protocol.rs:351-395 | the header loop (line cap, duplicate, malformed, oversized cases) computes the declared length of the specification |
| HeaderLines.HeaderMeans | crates/acp/src/protocol.rs:351-395 | over a list of lines: the declared length is `n` if and only if at most 64 lines are not blank, each of those has a colon, exactly one names Content-Length, and its value is `n` within the bound; too large under the same condition beyond the bound; malformed otherwise |
| HeaderLines.EveryHeaderJoins | crates/acp/src/protocol.rs:355-359 | every header is such a list of lines, separated by CR or LF |
| HeaderValue.AnyLetterCase | crates/acp/src/protocol.rs:374 | the name counts in any mixture of capital and small letters, and no other name counts |
| HeaderValue.LineValueExactly | crates/acp/src/protocol.rs:373-388 | the value of a line is `n` if and only if `n` fits 64 bits and what follows the first colon is white space of any kind, a plus sign or none, zeros, `n` in decimal, and white space |
| FrameCodec.Parse | crates/acp/src/protocol.rs:337-450 | a non-waiting, non-fatal parse consumes at least one byte and no more than the buffer |
| FrameOutcomes.FrameMeans | crates/acp/src/protocol.rs:337-411 | a frame whose header lines declare `n` waits for `n` bytes and is then the message they hold, or an error of exactly that length; a length beyond 16 MiB is fatal; any other header is an error of its own length |
| FrameOutcomes.NothingEndsYet | crates/acp/src/protocol.rs:340-350 | without a terminator more input is awaited, up to 16 KiB of header or 16 MiB of line |
| FrameOutcomes.LineMeans | crates/acp/src/protocol.rs:425-450 | a line ended by LF or CR LF is skipped if blank, and otherwise the message it holds or an error of exactly that length |
| FrameOutcomes.FramingDetected | crates/acp/src/protocol.rs:100-111 | the first byte that is not white space decides: an opening bracket or brace means JSON lines, anything else a header |
| FrameCodec.ParseIsLocal | crates/acp/src/protocol.rs:337-450 | a completed parse depends on no byte beyond those it consumes |
| FrameCodec.ParseUnchangedByMore | crates/acp/src/protocol.rs:337-450 | a parsed result is unchanged by appending bytes |
| FrameCodec.DrainSplit | crates/acp/src/lib.rs:1915-2050 | reading `a` then `b` is reading `a + b` while the caps do not interfere |
| FrameCodec.FeedAllIsDrain | crates/acp/src/lib.rs:1915-2050 | any chopping gives the events, leftover bytes and end of one read |
| FrameCodec.ChunkIndependenceExactly | crates/acp/src/lib.rs:1915-2050 | for a fixed framing, independence of chopping holds if and only if every terminator arrives within its cap |
| FramePrinter.DecimalRoundTrip | crates/acp/src/protocol.rs:375-383 | parsing a printed decimal length returns the number, for all 64-bit numbers |
| FramePrinter.HeaderRoundTrip | crates/acp/src/protocol.rs:488-494 | the header loop reads back the length the printer declares |
| FramePrinter.FindInEncoding | crates/acp/src/protocol.rs:472-501 | the first terminator of an encoding is where the printer put it |
| FramePrinter.FrameRoundTrip | crates/acp/src/protocol.rs:337-501 | an encoded message in front of any bytes parses back with its exact length |
| FramePrinter.StrictPrefixIncomplete | crates/acp/src/protocol.rs:337-450 | every strict prefix of one encoding parses as incomplete, never as an error |
| FramePrinter.StreamRoundTrip | crates/acp/src/protocol.rs:337-501 | any list of messages, encoded, concatenated and chopped in any way, is delivered as exactly that list with nothing left |
| FrameReader.DetectFraming | crates/acp/src/protocol.rs:100-111 | the detection loop decides by the first byte that is not white space |
| FrameReader.DetectAppend | crates/acp/src/protocol.rs:93-111 | white space in front never matters and a decision is never revised by more bytes |
| FrameReader.ParseFrame | crates/acp/src/protocol.rs:337-411 | the header parser with its loop computes the specified parse |
| FrameReader.ParseNdjson | crates/acp/src/protocol.rs:455-470 | the blank-line-skipping loop returns the first message line of the specification |
| FrameReader.FirstLineIsFirstEvent | crates/acp/src/protocol.rs:452-470 | the one-message parser finds the serve loop's first message with its exact length, waits when it sees nothing, fails when it first sees an error |
| FrameReader.Serve | crates/acp/src/lib.rs:1915-2050 | the nested read and parse loops with framing detection compute the specified connection |
| FrameReader.AutodetectionExactly | crates/acp/src/lib.rs:1928-1935 | with autodetection, independence of chopping holds if and only if the caps are kept and a JSON stream has only short white space without CRLF CRLF in front |
| FrameReader.AutodetectionDependsOnReads | crates/acp/src/lib.rs:1928-1935 | a concrete stream on which the chopping decides between one parse error and none |
| EventStream.EventStream.DispatchFrame | apps/vscode/src/eventStream.ts:269-324 | one dispatched frame moves cursor, deliveries and error count as specified |
| EventStream.EventStream.ConnectOnce | apps/vscode/src/eventStream.ts:188-267 | the buffered line splitter with its frame assembly refines reading the text one character at a time, with the cap check after every read |
| EventStream.EventStream.Loop | apps/vscode/src/eventStream.ts:154-185 | the reconnect loop computes the fold over its attempts, which may be refused, end, break off in a read or exceed the cap, and waits as `Waits` says of the attempts that failed |
| EventStream.WaitsDouble | apps/vscode/src/eventStream.ts:154-185 | the wait starts at the base, starts over there after every clean end, doubles with every further failure up to the maximum, and stays after sixteen doublings |
| EventStream.WaitsAt | apps/vscode/src/eventStream.ts:154-185 | each wait depends on the attempts before it in this way |
| EventFrames.DeliveredExactly | apps/vscode/src/eventStream.ts:269-324 | a frame is delivered if and only if its data is an object whose name agrees with that of the frame, it is no heartbeat, and its id lies beyond the cursor; what is delivered is that id, name and payload |
| EventFrames.CursorExactly | apps/vscode/src/eventStream.ts:285-323 | the cursor moves exactly to the id of such a frame or heartbeat, if that lies beyond |
| EventFrames.ErrorsExactly | apps/vscode/src/eventStream.ts:269-318 | exactly which frames are reported as errors |
| EventFrames.JoinMore | apps/vscode/src/eventStream.ts:273 | data lines are joined by newlines |
| EventFrames.LinesCollect | apps/vscode/src/eventStream.ts:240-252 | the last name and the last valid id win, data lines are kept in order without one leading space, comments are ignored |
| EventFrames.CrlfIsLf | apps/vscode/src/eventStream.ts:232 | lines may end in CR LF as well as in LF |
| EventStream.EventStream.SetCursor | apps/vscode/src/eventStream.ts:122-126 | the cursor moves to a non-negative value and is otherwise left alone |
| EventStream.ReceivesAPrefix | apps/vscode/src/eventStream.ts:207-253 | however chopped, a connection has processed a prefix of the text, and all of it unless the cap stopped it |
| EventStream.CapIsHarmlessExactly | apps/vscode/src/eventStream.ts:248-252 | the frame cap is harmless for every chopping if and only if the text has no more than `cap` characters in a row without a newline, counting what is already buffered |
| EventStream.LateDeliveries | apps/vscode/src/eventStream.ts:216-247 | a stop called while an event is delivered takes effect with the next read: until then at most a third as many events are delivered as newlines are left in what was read |
| EventStream.ItemCut | apps/vscode/src/eventStream.ts:220-247 | an event, heartbeat or comment that arrives whole does what it says, and any part of it does nothing |
| EventStream.SaidCut | apps/vscode/src/eventStream.ts:188-267 | wherever a connection breaks, the client has acted on a whole number of the items sent |
| EventStream.ResumeDeliversExactlyOnce | apps/vscode/src/eventStream.ts:154-324 | across any number of disconnects the delivered events are exactly the journal between initial and current cursor, once each and in order |
| EventStream.CatchesUp | apps/vscode/src/eventStream.ts:188-324 | once a connection carries the journal to its end within the cap, everything after the initial cursor has been delivered, however it ends then |
| EventStream.HeartbeatIsSafeExactly | apps/vscode/src/eventStream.ts:303-310 | a heartbeat id keeps delivery exact if and only if it is below the next journal id |
| EventStream.PassedEntriesAreLost | apps/vscode/src/eventStream.ts:303-323 | an entry the cursor has passed undelivered is never delivered, whatever arrives later |
| EventStream.DeliveredStrictlyIncreasing | apps/vscode/src/eventStream.ts:303-323 | for arbitrary bytes delivered ids are strictly increasing and stay between initial and current cursor |
| LoopDetection.RecordTripsExactly | crates/agent/src/loop_detect.rs:333-369 | `record` trips exactly when the last threshold + 2 keys since the last alternation trip alternate, or the key's count since the last trip of either kind reaches the threshold |
| LoopDetection.StateStepTripsExactly | crates/agent/src/loop_detect.rs:231-262 | `record_state_step` trips exactly when the last threshold + 2 steps since its last trip swing between two states under one context |
| LoopDetection.EvidenceTripsExactly | crates/agent/src/loop_detect.rs:273-312 | `record_tool_evidence` trips exactly on three same-hash observations with changing commands since its last trip; the ring is the last 16 of them |
| LoopDetection.FailureTripsExactly | crates/agent/src/loop_detect.rs:193-220 | `record_failure` trips exactly on the threshold-th report in a row of one message with one fingerprint since it tripped or entered the map |
| LoopDetection.LoopDetector.RecordKey | crates/agent/src/loop_detect.rs:333-369 | the field updates compute the specified step and count trips |
| LoopDetection.LoopDetector.RecordStateStep | crates/agent/src/loop_detect.rs:231-262 | the field updates compute the specified step and report the reason |
| LoopDetection.LoopDetector.RecordToolEvidence | crates/agent/src/loop_detect.rs:273-312 | the field updates, including the ring loop, compute the specified step |
| LoopDetection.LoopDetector.RecordFailure | crates/agent/src/loop_detect.rs:193-220 | the map updates compute the specified step and keep the map bounded |
| Accounting.BillsAreAlwaysLegal | crates/agent/src/lib.rs:1288-1406 | whatever is called and whatever the authority refuses, the successful calls are: nothing, one refund, or dispatches closed at most once |
| Accounting.BillsExactly | crates/agent/src/lib.rs:1288-1406 | the legal logs are exactly those some sequence of calls produces |
| Accounting.RepliesExactly | crates/agent/src/lib.rs:1288-1406 | over all call sequences on a reserved attempt: a reply is `Ok` if and only if the call appended exactly its own authority call to the log, an error leaves everything as it was, and each guard's error is given in terms of the log |
| Accounting.UnreservedReplies | crates/agent/src/lib.rs:1288-1406 | an attempt without a reservation answers every call without the authority |
| Accounting.ClosedForGood | crates/agent/src/lib.rs:1288-1297 | once an attempt is closed no further call changes anything |
| Accounting.AttemptAccounting.Mark | crates/agent/src/lib.rs:1302-1312 | `mark_dispatched` takes the attempt to the specified state and answer |
| Accounting.AttemptAccounting.Settle | crates/agent/src/lib.rs:1316-1354 | `settle_usage` takes the attempt to the specified state and answer |
| Accounting.AttemptAccounting.FailAfter | crates/agent/src/lib.rs:1363-1384 | `fail_after_dispatch` takes the attempt to the specified state and answer |
| Accounting.AttemptAccounting.FailBefore | crates/agent/src/lib.rs:1391-1406 | `fail_before_dispatch` takes the attempt to the specified state and answer |
| ToolScan.RegionIsShortest | crates/agent/src/tool_json.rs:73-123 | the extractor returns a region if and only if it is the shortest one from the first opener whose string-aware depth returns to zero, within 64 KiB |
| ToolScan.RegionEndsOutsideStrings | crates/agent/src/tool_json.rs:73-123 | the region ends on a closing bracket outside strings with balanced brackets |
| ToolScan.ExtractBalanced | crates/agent/src/tool_json.rs:73-123 | the scanning loops compute that region |
| ToolScan.BlobLen | crates/agent/src/tool_json.rs:329-359 | the scanning loop computes the specified blob length |
| ToolScan.BlobEndsWithRegion | crates/agent/src/tool_json.rs:329-359 | the blob ends exactly where the extracted region ends, past any prose that opens no string and closes no bracket |
| ToolScan.BlobOfOpener | crates/agent/src/tool_json.rs:329-359 | on text that starts with an opener the blob length is the length of the region |
| ToolScan.BlobEndsWithRegionExactly | crates/agent/src/tool_json.rs:329-359 | for text without backslashes the blob scanner closes where the region ends if and only if the prose in front leaves it in its start state |
| ToolScan.EscapeRestoresParity | crates/agent/src/tool_json.rs:329-359 | with a backslash the two may end together although the prose opens a string: an instance |
| ToolScan.BlobAstray | crates/agent/src/tool_json.rs:329-359 | an instance of prose with an open quotation mark: the region is found and the blob scanner never closes |
| ToolRepair.StripTrailingCommas | crates/agent/src/tool_json.rs:125-153 | the nested loops compute the specified pass |
| ToolRepair.StripOnlyRemovesExactly | crates/agent/src/tool_json.rs:125-153 | what single- and double-quoted strings hold survives, and only commas outside them go, if and only if the text is ASCII and no comma inside such a string stands, blanks apart, before a closing bracket |
| ToolRepair.StringLosesComma | crates/agent/src/tool_json.rs:125-153 | an ASCII text whose double-quoted value loses its comma |
| ToolRepair.SingleQuotedLosesComma | crates/agent/src/tool_json.rs:125-153 | an ASCII text whose single-quoted value loses its comma |
| ToolRepair.PassesKeepStringsExactly | crates/agent/src/tool_json.rs:57-61 | the comma pass and the quote pass together keep all strings if and only if moreover no single-quoted string holds an unprotected double quote; the parser then sees every character in order, inside or outside strings as before, with double quotes for delimiters |
| ToolRepair.OnePassRemovesAllExactly | crates/agent/src/tool_json.rs:125-153 | the result still has a trailing comma if and only if two commas stood, blanks apart, before a closing bracket |
| ToolRepair.OnePassLeavesComma | crates/agent/src/tool_json.rs:125-153 | an input that one pass leaves with a trailing comma |
| RepairedCalls.StripDropsExactly | crates/agent/src/tool_json.rs:125-153 | the comma pass drops exactly the commas that only blanks separate from a closing bracket, and leaves all else in order, if the text is ASCII |
| ToolRepair.UnquoteSingle | crates/agent/src/tool_json.rs:157-200 | the character loop computes the specified pass |
| ToolRepair.UnquoteIsIdentityExactly | crates/agent/src/tool_json.rs:157-200 | the pass changes nothing if and only if every single quote is inside a double-quoted string |
| ToolRepair.UnquoteKeepsStringsExactly | crates/agent/src/tool_json.rs:157-200 | the string structure is preserved if and only if no single-quoted string holds an unprotected double quote |
| ToolRepair.BareDoubleBreaksString | crates/agent/src/tool_json.rs:157-200 | a single-quoted string that holds a double quote and is broken up |
| ToolRepair.UnquoteIdempotent | crates/agent/src/tool_json.rs:157-200 | under that condition a second pass changes nothing |
| ToolJson.FindStart | crates/agent/src/tool_json.rs:317-327 | the earliest place where any marker starts, and none only if no marker occurs |
| ToolJson.ExtractFromText | crates/agent/src/tool_json.rs:271-315 | the extraction loop terminates and computes the specified list of calls |
| ToolJson.ExtractedInSequence | crates/agent/src/tool_json.rs:271-315 | at most 64 calls, each read at its own place, the places in text order and each beyond the span that was skipped for the call before |
| ToolJson.CleanRegionsAreApart | crates/agent/src/tool_json.rs:271-315 | if the span of a call starts clean, the region of every later call begins at or after the end of its region: none comes back twice or from inside it |
| ToolJson.SharedRegionExactly | crates/agent/src/tool_json.rs:271-315 | two returned calls are read from the same region if and only if the later one is read at or in front of the opener of the earlier one's region |
| ToolJson.OneCallReturnedTwice | crates/agent/src/tool_json.rs:271-315 | a shape of text in which a quotation mark in front of one call makes it come back twice |
| ToolJson.CutFallsOnBoundaryExactly | crates/agent/src/tool_json.rs:299-309 | the cut behind a call falls between two UTF-8 characters if and only if the blob scanner closes or the serialized length happens to reach such a place |
| ToolJson.CleanCutFallsOnBoundary | crates/agent/src/tool_json.rs:299-309 | behind clean prose it always does |
| ToolJson.SkipFallsOnBoundary | crates/agent/src/tool_json.rs:310-312 | skipping the first character of a marker never cuts a character |
| ToolJson.CutInsideCharacter | crates/agent/src/tool_json.rs:299-309 | a text with accented prose whose cut falls inside a character |
| ToolJson.EveryCallIsCovered | crates/agent/src/tool_json.rs:271-315 | every place where a marker starts and a call can be read is read or skipped: it lies in the span of a returned call, unless 64 were returned or the first fills nine tenths of the text |
| ToolJson.SpanEndsWithRegion | crates/agent/src/tool_json.rs:299-309 | a span ends where the region of its call ends if the prose in front leaves the scanner in its start state |
| ToolJson.BraceMarkersAreClean | crates/agent/src/tool_json.rs:317-327 | where a span starts with a brace, as at four of the six markers, its region starts there too and the scanner is in its start state |
| ToolJson.EveryCallIsFound | crates/agent/src/tool_json.rs:271-315 | no call is missed behind clean prose: every readable place lies in the span of a returned call and, if that span starts clean, reads that very call or lies inside its region; the exceptions are 64 calls and a first call that fills nine tenths |
| RepairedCalls.RepairExactly | crates/agent/src/tool_json.rs:48-70 | a text of at most 64 KiB gives a value if and only if its first balanced piece does: as it stands if that parses, else after both passes, else after quoting bare keys of that; what parses is never rewritten |
| RepairedCalls.RepairedCallIsFound | crates/agent/src/tool_json.rs:271-315 | wherever a marker starts and the first balanced piece behind it gives, as it stands or repaired, a value that reads as a call, a call is returned for that place: read from that value, or from a region that holds the place, if its span starts clean |
| RepairedCalls.RepairedPieceKeepsStrings | crates/agent/src/tool_json.rs:57-63 | what the two passes alone make readable is the piece itself: the parser saw its characters in order, inside and outside strings as they were |
| RepairedCalls.ReturnedCallsWereRead | crates/agent/src/tool_json.rs:271-315 | every returned call was read from a value that the first balanced piece at its place gives |
| RepairedCalls.CallAtStartComesFirst | crates/agent/src/tool_json.rs:276-291 | a call read from the start of the text is returned first, with or without a marker |
| RepairedCalls.OneCallAlone | crates/agent/src/tool_json.rs:271-291 | a text of more than 128 KiB gives nothing, and one whose first call fills nine tenths of it gives that call alone |
| RepairedCalls.ObjectRepaired | crates/agent/src/tool_json.rs:57-63 | an object with single quotes and a trailing comma that is read after both passes |
| ToolJson.SecondCallIsLost | crates/agent/src/tool_json.rs:271-315 | the proviso is needed: a shape of text in which a quotation mark in front of the first call makes a second readable call part of its span, and it is not returned |
| ToolJson.CallShrinksText | crates/agent/src/tool_json.rs:299-309 | every call read shrinks the remaining text, provided no value serializes to nothing |
| Transcript.TranscriptStaysWellFormed | apps/vscode/src/state.ts:601-799 | for any event list: distinct entry ids, at most 500 entries, texts within their caps and distinct tool ids per entry are all preserved |
| Transcript.TextFromCreation | apps/vscode/src/state.ts:601-799 | from its creating event on, an unevicted entry's text is the first MAX_ENTRY_CHARS characters of creation text and all later deltas, and so for reasoning and summary |
| Transcript.TextIsClampedFold | apps/vscode/src/state.ts:517-522 | clamping at every step equals clamping the unbounded fold once, whatever events interleave |
| Transcript.CreatedText | apps/vscode/src/state.ts:645-686 | a message's entry holds the clamped concatenation of its parts, or its data text if the parts have none |
| Transcript.MergeToolExactly | apps/vscode/src/state.ts:601-630 | a merge touches exactly the tool with the update's id, appending it if missing, and keeps ids distinct |
| Transcript.OnlyOldestIsEvicted | apps/vscode/src/state.ts:688-713 | entries keep arrival order, and only the oldest leaves, only when a 501st arrives |
| Transcript.ToolsFromCreation | apps/vscode/src/state.ts:601-799 | from the event that creates an unevicted entry on, a tool exists exactly if an update for it has arrived, and its name, state, input and result are the ones last written, whatever events interleave |
| Transcript.ToolsAreLastWritten | apps/vscode/src/state.ts:601-799 | the same from any moment at which the tool is as its updates so far describe it |
| Transcript.BuildEntry | apps/vscode/src/state.ts:645-686 | the loop over message parts computes the specified entry |
| Transcript.TranscriptFromMessages | apps/vscode/src/state.ts:716-730 | the loop over a newest-first page computes the specified transcript |
| Transcript.PageIsWellFormedExactly | apps/vscode/src/state.ts:716-730 | a page starts the transcript off well formed if and only if the ids of its 500 newest messages are distinct |
| TranscriptEvents.EntryTellsItsStory | apps/vscode/src/state.ts:733-799 | told of the JSON fields: from a `message_created` on, whatever events interleave, an unevicted entry has the role, number and time of the message; its text, reasoning and summary are those of the message and all later deltas, cut once; each tool is what calls, results and state changes say |
| TranscriptEvents.EntryWithoutMessage | apps/vscode/src/state.ts:753-777 | an entry that begins with an update is the assistant's, with number and time zero, and says what the updates say |
| TranscriptEvents.PageEntryTells | apps/vscode/src/state.ts:716-730 | the entry of a message on a durable page has the role, number, time, text and tools its fields say |
| TranscriptEvents.StoredRead | apps/vscode/src/state.ts:656-681 | a part listed in a message is read the same in the form of the stream and in the stored form |
| TranscriptEvents.UnusedChangesNothing | apps/vscode/src/state.ts:733-799 | events of other names, or without an object, a message, a part, an id or a state where one belongs, change nothing |
| TranscriptEvents.DeltaSays | apps/vscode/src/state.ts:753-777 | a text delta as it comes from the stream |
| TranscriptEvents.DigitsOfNumber | apps/vscode/src/state.ts:541-550 | a numeric id is the decimal of its number, so messages with different numbers have different entries |

## Left out

- Time: timeouts, the cancel grace period, backoff sleeps and jitter are steps that may happen at any moment, or lengths without a clock.
- Liveness: results are safety at every step and exactness at quiescence; only for the writer is progress proved, and whether a backend returns is left open.
- Sockets, stdio, HTTP and the tokio scheduler: any interleaving of the modelled steps is allowed. Bounded queues may block a push; here a push simply happens later.
- Emits made by a backend after its prompt future ended, or from several threads at once inside it: updates are assumed to be emitted one at a time on the prompt's own future.
- `RuntimeGuarantees.SilenceAfterCancel`: with several emits in progress at once, each that has passed its check could still add a frame; the bound of one is for one emit at a time.
- JSON text encoding and decoding, and the classification of messages: an arbitrary decoder with stated round trips; a `shutdown` message is one the decoder's client marks as final.
- The upper limit of one read (`READ_CHUNK`): independence is stated for reads of any size.
- Error message texts, tracing and status callbacks.
- `Runtime.Next`: the requests other than `session/prompt` and cancels, and permission requests made by a backend, are not steps.
- `OutstandingRequests.RegisterGivesFreshId`: needs a cap below 2^64, which every `usize` cap meets.
- `FramePrinter.StreamRoundTrip`: an NDJSON body must not end in a carriage return, which the line parser would strip; serialized JSON never does.
- `FrameReader.ParseFrame`: the overflow check on the end of a body cannot fail within the 16 MiB bound and is not modelled; the UTF-8 check of a length value is subsumed by its digits.
- The `usize` counters of the loop detector are unbounded, `record_progress`, `tool_key` and `normalize_value` are not modelled, and no bound is claimed for its `seen` map.
- `LoopDetection.FailureTripsExactly`: which entry a full failure map gives up is arbitrary, as it is for a hash map.
- `EventStream.ResumeDeliversExactlyOnce`: text is decoded characters, so a multi-byte character cut by a disconnect is simply missing; the platform's number parsing is assumed to read back the printed sequence numbers, which in JavaScript holds up to 2^53; callbacks that move the cursor are not modelled, and a stop is the end of a connection (`LateDeliveries` bounds what one read still delivers after it).
- `EventStream.EventStream.Loop`: runs over a given list of attempts, and an error raised while stopping is counted although the client suppresses it.
- `quote_bare_keys` and `call_from_value` are arbitrary functions of the extraction.
- `ToolJson.ExtractFromText`: text has one character per UTF-8 byte, and a cut inside a character, at which the code panics, is not an outcome of the loop (`CutFallsOnBoundaryExactly` says when it happens); the nine-tenths comparison is exact instead of in floating point, which agrees on these sizes.
- The authority behind `AttemptAccounting` is an oracle that accepts or refuses; cost computation from usage is not modelled.
- `TranscriptEvents.EntryTellsItsStory`: told of fields that an object holds once; of a repeated key JavaScript keeps the last value, while the model reads the first.
- `TranscriptEvents.DigitsOfNumber`: integers from 10^21 on, which JavaScript prints with an exponent, are printed in full.
- Transcript sequence numbers and times are unbounded integers, and JavaScript strings are sequences of characters; `FaktorStore` and the panels around the transcript are not modelled.
- Wire-shape builders, golden fixtures, response validators, the budget store, the terminal ring buffer and the UI: single-branch facts or other components.
