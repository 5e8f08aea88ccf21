# AILIENANT core: state machines, parsers and caches

This project models the self-contained logic of the AILIENANT agent server and its editor
extension, and proves properties that hold over every input, every run and every interleaving.
Code that mutates objects is modelled by classes whose methods state their whole new state with
specification functions; runs are sequences of events over those functions, and the theorems are
about runs. An event that is not enabled changes nothing, so a run is any sequence of events.
Each block between two awaits is one atomic step. Clocks and token balances are real numbers,
text is a sequence of characters, fresh identifiers stand for UUIDs.

## What is modelled

- **Connection manager** (`InboundGuard`, `SessionBridge`, `SessionPipeline`, `BridgeSession`,
  `SessionStream`, `Waiters`, `WaiterTable`, `Routing`, `ConnectionManager`): the inbound token bucket, the bounded
  queue of an interactive devcontainer session with high/low-water flow control and forced end of
  stream, the demux task that consumes it, request/response waiters with timeouts, cancellation
  and disconnect reaping, alias routing over one physical socket, and the disconnect path across
  all of these tables.
- **Command framing** (`CommandBoundary`): cutting exit-code sentinels out of a chunked byte stream.
- **Server registries** (`RequestDedup`, `Consolidation`, `GuardedSaves`): the submit-idempotency
  cache, the epoch/cancel scheme that keeps background consolidation from overwriting newer saves,
  and the flood guard in front of it.
- **Coder** (`Text`, `EditParser`, `BlockCleaning`, `EditRoundTrip`, `PatchOverlay`): the SEARCH/REPLACE
  parser, the cleaning of a block, the documented format as its printer, the in-memory overlay that turns edits into diffs, and the
  content carried from step to step while proposals are approved, changed or declined in between.
- **Recency heatmap** (`AccessHeatmap`), **interview node** (`Interview`,
  `InterviewTranscript`, `CoverageAxes`),
  **stylesheet guard** (`Stylesheet`), **WBS orchestrator** (`Orchestrator`) and **inline-edit
  stream** (`InlineEdit`).

`Prelude` holds the option type and the byte type.

## Where the code and its documentation disagree

The model follows the code. Each point has an exact condition or a concrete witness in the table.

- `drain_boundaries` promises to retain a trailing partial sentinel. It retains a partial marker,
  but not a marker already followed by digits: a chunk boundary between the first digit of the
  exit code and the line end loses that code, and the sentinel is output as it stands
  (`CommandBoundary.ChunkedIffNoCodeCut`, `CommandBoundary.ChunkedIsCutFraming`).
- `_is_duplicate_request` promises to recognise an id seen within the window. A repeat does not
  renew the recording, so an id seen 30 s ago can be taken for new (`RequestDedup.RepeatDoesNotRenew`).
- `_parse_coverage_axes` promises that a pass cut short yields no axes. Text that ends with the
  marker itself raises an index error (`CoverageAxes.ParseCoverageAxes`).
- The step schema calls `rejected` terminal; the orchestrator dispatches such a step again
  (`Orchestrator.RejectedIsRedispatched`).
- Patch acks and approvals drop late replies so that no result is orphaned, but a wait cancelled
  after its reply arrived leaves the reply behind (`Waiters.OrphansAreLeftBehind`, `Waiters.CancelledWaitLeavesItsReply`).
- The content the steps of a run have produced is never forgotten. A step that takes a file back to
  its workspace text emits nothing, so the older change is read next; when the operator changes a
  proposal before it is written, or declines it, the next step still reads the coder's text
  (`PatchOverlay.OverlayIsSequentialIff`, `PatchOverlay.RevertIsLost`,
  `PatchOverlay.ModifiedApprovalIsLost`, `PatchOverlay.DeclinedProposalStays`).
- A batch of questions committed in a round that reports its axes settled is routed to synthesis
  unasked. The batch stays on the thread, and the next turn of the session asks it first, under a
  new request (`Interview.CommittedIsAskedIff`, `Interview.SettledBatchIsAskedNextTurn`).
- The round count is described as that of one ideation session, but the seed of a new turn does not
  reset it: once an interview has used its three rounds, no later turn of the session composes a
  question (`Interview.MayAskIffNotBarren`, `Interview.SpentForGood`).
- Disconnect resets the save counter, so the stale check alone can miss a save; only the
  cancellation protects the commit then (`Consolidation.SaveMissedIff`,
  `Consolidation.DisconnectHidesSave`).
- Every save is said to invalidate a running pass. A file update the flood guard sheds does not reach
  the registry, and the pass it should have stopped commits
  (`GuardedSaves.PassSurvivesUpdateIffOverdrawn`, `GuardedSaves.BurstIsMissed`).
- Disconnect is said to reap every alias of a socket. A message to a closed connection id, which the
  server sends when an analyst reply outlives its connection, makes the sole remaining connection
  adopt that id. If the client reconnects and the adopter then closes, the open connection loses its
  route; if its id is adopted once more, its own close is taken for stale, its waiters are not woken,
  and its sessions stay in the table for good (`Routing.LosesRouteIffCutOff`,
  `Routing.CloseMissedIff`, `Routing.NoLeakIff`, `Routing.MissedCloseLeaks`).
- A session that moved to another live connection loses its route when its former connection closes
  (`Routing.RouteSurvivesCloseIffNotOwned`), and after a reconnect it is on the dead socket until it
  is attached again (`Routing.RouteIsCurrentIff`).
- The orchestrator relies on a downstream that counts retries past its ceiling. The guardrail node,
  which its documentation names as that downstream, stops counting at the ceiling, so a step it keeps
  open would never be given up on (`Orchestrator.TerminatesIffCountsPastCeiling`). In this repository
  the two nodes are not wired together: nothing but tests calls the orchestrator node.
- The stylesheet guard reports the line of an error. It does not count the lines inside strings, so
  behind a string with an escaped newline the line is too low (`Stylesheet.VerdictIsLocated`,
  `Stylesheet.EscapedNewlineShiftsReports`).
- An inline-edit selection that starts behind the end of the file opens with a delete of negative
  length (`InlineEdit.DeltasInRangeIff`).

## Model

| member | source | states |
|---|---|---|
| `InboundGuard.RateLimiter.AllowInbound` | ailienant-core/api/websocket_manager.py:227-247 | the two dictionaries stay in step and one call does to them what the abstract bucket table says, with the same verdict |
| `InboundGuard.BalanceIsTightestWindow` | ailienant-core/api/websocket_manager.py:235-247 | after any run, a client's balance is the smallest allowance over all windows of its bucket lifetime, and some window attains it |
| `InboundGuard.RefusedIffOverdrawn` | ailienant-core/api/websocket_manager.py:227-247 | a call is refused if and only if admitting it would exceed 100 + 50 T calls in some window of length T of the same bucket lifetime |
| `InboundGuard.WindowBound` | ailienant-core/api/websocket_manager.py:227-247 | no window of length T lets through more than 100 + 50 T calls |
| `SessionQueues.BoundedQueue.ForceEof` | ailienant-core/api/websocket_manager.py:1621-1630 | the sentinel always gets in, at the cost of the oldest item of a full queue |
| `SessionQueues.SessionTable.Register` | ailienant-core/api/websocket_manager.py:1594-1607 | a second registration returns the live queue and changes nothing; a first one opens an empty, unpaused session |
| `SessionQueues.SessionTable.Unregister` | ailienant-core/api/websocket_manager.py:1609-1638 | idempotent teardown: every trace of the session is gone, its queue ends with the sentinel, no other session changes |
| `SessionQueues.SessionTable.UpdateFlowState` | ailienant-core/api/websocket_manager.py:1736-1754 | reports a pause exactly for an unpaused session of at least 192 items and a resume exactly for a paused one of at most 64, and records it for this session only |
| `SessionQueues.SessionTable.PushChunk` | ailienant-core/api/websocket_manager.py:1756-1797 | never waits: a chunk is queued, or dropped and counted, or ignored for an unknown session or bad encoding; a pause is reported exactly by the push that is queued and brings an unpaused session to 192 items or more |
| `SessionQueues.SessionTable.ResolveExit` | ailienant-core/api/websocket_manager.py:1828-1846 | the exit code is kept even for an unknown session; a live queue gets its sentinel |
| `SessionQueues.SessionTable.ReapSessions` | ailienant-core/api/websocket_manager.py:352-359 | a disconnect ends exactly the sessions listed for the client, which are at least all it opened; queue, drop counter, pause flag and exit code of every other session stay |
| `SessionQueues.PendingMoves` | ailienant-core/api/websocket_manager.py:1606-1638 | the index of open sessions gains exactly the session opened, under its client, and loses exactly the one closed |
| `SessionPipeline.FlowControl` | ailienant-core/api/websocket_manager.py:1736-1811 | in every interleaving both queues stay within 256, a paused session holds more than 64 items, signals alternate starting with a pause, and the last one tells the current state |
| `SessionPipeline.SignalledIff` | ailienant-core/api/websocket_manager.py:1736-1797 | at every point of every run: a pause is signalled if and only if a queued push brings an unpaused session to 192 items or, the host having reported the exit, a take leaves that many; a resume if and only if a take leaves a paused session at most 64 |
| `SessionPipeline.UnpausedIsBelowHighWater` | ailienant-core/api/websocket_manager.py:112-114 | after every run an open, unpaused session that the host has not ended holds fewer than 192 items |
| `SessionPipeline.RoomIs256` | ailienant-core/api/websocket_manager.py:1786-1796 | a push is queued if and only if fewer than 256 items are, else dropped and counted; framed output waits for room; an exit evicts the oldest item of a full queue and only of one |
| `SessionPipeline.DrainResumes` | ailienant-core/api/websocket_manager.py:1799-1811 | with the host stalled and only consumers moving, the session is resumed by the very take that brings the queue to the low-water mark, with one signal |
| `SessionPipeline.Conservation` | ailienant-core/api/websocket_manager.py:1756-1846 | on both queues, what left and what is queued is what was accepted, in order; every decodable push is delivered, evicted, queued or counted as dropped |
| `SessionPipeline.EofReachesConsumers` | ailienant-core/api/websocket_manager.py:1609-1638 | after any exit, close or timed-out teardown, in any order and number, the sentinel is queued until taken; once the demux is done the same holds for the stream reader |
| `SessionPipeline.StopsAtFirstSentinel` | ailienant-core/api/devcontainer_bridge.py:225-228 | with nothing closing the session again, the demux ends if and only if it has taken the items up to the first sentinel, and takes no more |
| `SessionPipeline.LateBegin` | ailienant-core/api/devcontainer_bridge.py:216-224 | a demux that starts after its session was torn down takes nothing and ends the reader at once |
| `SessionPipeline.AbortEnds` | ailienant-core/api/devcontainer_bridge.py:247-253 | at every point of a run, a demux that fails or is cancelled ends the stream reader and the session |
| `SessionPipeline.NextKeeps` | ailienant-core/api/devcontainer_bridge.py:216-265 | every step of pushes, exits, closes, the demux, a cancelled demux, teardown and the reader keeps the session invariant |
| `BridgeSessions.BridgeSession.Begin` | ailienant-core/api/devcontainer_bridge.py:216-224 | the first block of the demux task, on the objects, is the abstract machine's step; a session already cleaned up ends at once |
| `BridgeSessions.BridgeSession.Take` | ailienant-core/api/devcontainer_bridge.py:225-240 | taking one item, with the drain check or the end of stream, is the abstract machine's step, and the flow signal reported is the one recorded |
| `BridgeSessions.BridgeSession.Put` | ailienant-core/api/devcontainer_bridge.py:245-246 | handing framed output on is the abstract machine's step; a full outbound queue keeps the task suspended |
| `BridgeSessions.BridgeSession.Finish` | ailienant-core/api/devcontainer_bridge.py:247-265 | the finally block ends the outbound queue and clears the manager's bookkeeping, whatever the state |
| `SessionStream.ReaderGetsTheFraming` | ailienant-core/api/devcontainer_bridge.py:225-253 | over every run, what is handed to the stream reader is a prefix, in order, of the framing of the chunks taken, and all of it if and only if the demux was not killed while handing on output |
| `SessionStream.ReaderGetsTheStream` | ailienant-core/api/devcontainer_bridge.py:225-253 | it is the taken stream framed as a whole, cut sentinels left as they stand, if and only if the demux was not killed that way |
| `SessionStream.ChunkingIsInvisible` | ailienant-core/api/devcontainer_bridge.py:241-246 | with no boundary inside an exit code and no such kill, it is the framing of the taken stream, however that was cut |
| `CommandBoundary.PartialSuffixLen` | ailienant-core/core/command_boundary.py:76-86 | the longest suffix that begins a marker, by the loop |
| `CommandBoundary.DrainBoundaries` | ailienant-core/core/command_boundary.py:51-73 | the loop's output, rest and codes are those of the recursive framing |
| `CommandBoundary.SentinelIff` | ailienant-core/core/command_boundary.py:38-39 | a sentinel is recognised exactly where marker, digits and LF or CR LF stand, with that length and the value of those digits |
| `CommandBoundary.OneMoreChunk` | ailienant-core/core/command_boundary.py:51-73 | framing two pieces leaves the same rest as framing them joined, and equals it unless the boundary is inside a code, which then loses exactly one code |
| `CommandBoundary.ChunkedFraming` | ailienant-core/api/devcontainer_bridge.py:241-246 | over any chunking, as many codes are lost as are cut by some boundary, and nothing changes if none is |
| `CommandBoundary.ChunkedIsCutFraming` | ailienant-core/api/devcontainer_bridge.py:241-246 | framing by chunks is framing the whole stream, except that exactly the sentinels with a boundary inside their code are output as they stand instead of resolved |
| `CommandBoundary.ChunkedIffNoCodeCut` | ailienant-core/core/command_boundary.py:51-60 | framing by chunks equals framing the whole stream if and only if no boundary falls inside a code |
| `CommandBoundary.TranscriptRoundTrip` | ailienant-core/core/command_boundary.py:27-49 | a shell transcript without control bytes comes back as its output and exit codes |
| `CommandBoundary.LateLineEndLosesCode` | ailienant-core/core/command_boundary.py:58-70 | the smallest failing case: the line end arrives one chunk after the digits |
| `Waiters.WaitersAreIndependent` | ailienant-core/api/websocket_manager.py:1343-1374 | the shared tables are a family of one-waiter automata: what a waiter sees depends on no other id |
| `Waiters.OwnReplyOnly` | ailienant-core/api/websocket_manager.py:1447-1479 | a waiter returns a reply sent for its own id, or nothing |
| `Waiters.ReplyIsWhatWasSent` | ailienant-core/api/websocket_manager.py:1447-1535 | over every run a waiter is woken with the last terminal reply sent since it registered, a "provisioning" tick not counting, and an exec waiter with exactly the chunks of each of its two streams, in order; cancelled, it leaves its reply behind if and only if it is a patch or an approval |
| `Waiters.DisconnectWakesAll` | ailienant-core/api/websocket_manager.py:312-344 | after a disconnect, in every continuation, no waiter of that session is blocked: its event is set for as long as it is suspended, and if it returns it returns nothing |
| `Waiters.OrphansAreLeftBehind` | ailienant-core/api/websocket_manager.py:1350-1374 | a result without a registered waiter exists if and only if a patch or approval wait was cancelled after its reply |
| `Waiters.CancelledWaitLeavesItsReply` | ailienant-core/api/websocket_manager.py:1350-1362 | the smallest such run: an acknowledged patch wait is cancelled |
| `Waiters.QuiescentTablesAreEmpty` | ailienant-core/api/websocket_manager.py:1497-1503 | with no waiter suspended every table is empty, and the result buffer too if and only if no reply was left behind |
| `Waiters.RunKeeps` | ailienant-core/api/websocket_manager.py:1425-1520 | every run keeps results, buffers, events and reverse indexes consistent |
| `WaiterTables.WaiterTable.Register` | ailienant-core/api/websocket_manager.py:1455-1458 | a fresh unset event, an index entry and, for exec, an empty buffer |
| `WaiterTables.WaiterTable.Resolve` | ailienant-core/api/websocket_manager.py:1505-1520 | a terminal reply to a known id is stored and sets the event; anything else changes nothing |
| `WaiterTables.WaiterTable.AppendStream` | ailienant-core/api/websocket_manager.py:1522-1535 | a chunk is appended to the named stream of a waiting request and ignored otherwise |
| `WaiterTables.WaiterTable.Wake` | ailienant-core/api/websocket_manager.py:1459-1479 | the woken wait takes its reply, with the streamed output for exec, and leaves no entry |
| `WaiterTables.WaiterTable.CleanUp` | ailienant-core/api/websocket_manager.py:1913-1919 | the finally block: patch and approval waits keep an unconsumed result, the bridge waits do not |
| `WaiterTables.WaiterTable.ReapWaiters` | ailienant-core/api/websocket_manager.py:323-344 | exactly the requests listed for the session lose their event, result and buffer, and exactly their events become set |
| `Routing.RoutingTable.RegisterAlias` | ailienant-core/api/websocket_manager.py:292-310 | the session is routed to the connection's socket and recorded under it; without a live connection nothing happens |
| `Routing.RoutingTable.RecoverAlias` | ailienant-core/api/websocket_manager.py:392-416 | succeeds if and only if exactly one id is a physical connection, and then routes the target to it |
| `Routing.RoutingTable.Deliver` | ailienant-core/api/websocket_manager.py:418-440 | the socket a message goes to, after recovery where the target has no route |
| `Routing.RoutingTable.Disconnect` | ailienant-core/api/websocket_manager.py:370-383 | a stale close changes nothing; any other removes exactly the owned ids |
| `Routing.TrunkIsIndependent` | ailienant-core/api/websocket_manager.py:284-416 | over every run with connection and session ids apart, the routes of the connections depend on no session |
| `Routing.RoutesAreAccountedFor` | ailienant-core/api/websocket_manager.py:284-416 | over every such run, each routed id is an open connection on its own socket or an alias recorded under a connection |
| `Routing.RoutedAsItStands` | ailienant-core/api/websocket_manager.py:380-415 | per open connection, three exclusive cases read off its history: on its own socket, unrouted, or on the socket of another |
| `Routing.LosesRouteIffCutOff` | ailienant-core/api/websocket_manager.py:378-382 | an open connection has lost its own route if and only if a connection that had adopted its id has closed since it connected |
| `Routing.AdoptedIff` | ailienant-core/api/websocket_manager.py:407-415 | one connection holds the id of another if and only if a message came to that id while it was unrouted and this was the sole physical connection, and it has not closed since |
| `Routing.CloseMissedIff` | ailienant-core/api/websocket_manager.py:375-377 | the real close of an open connection is taken for stale if and only if it is routed elsewhere |
| `Routing.NoLeakIff` | ailienant-core/api/websocket_manager.py:284-416 | at every point of a run all aliases belong to open connections if and only if no event is a missed close of a connection with aliases or an announcement for a routed id that is not open |
| `Routing.TidyEndsEmpty` | ailienant-core/api/websocket_manager.py:378-383 | in that case the tables are empty once every connection is closed |
| `Routing.MissedCloseLeaks` | ailienant-core/api/websocket_manager.py:375-382 | the leak at its smallest: every connection is closed, and a session is still routed |
| `Routing.RecoversIffSoleOwnConnection` | ailienant-core/api/websocket_manager.py:392-416 | an unrouted message gets a route if and only if exactly one open connection is on its own socket and adopted by none |
| `Routing.SessionsAreIndependent` | ailienant-core/api/websocket_manager.py:292-310 | a session's route and owners follow from its own handshakes and the connections' routes alone |
| `Routing.RouteSurvivesCloseIffNotOwned` | ailienant-core/api/websocket_manager.py:375-383 | a close, of any socket, leaves a session routed if and only if it was routed and the close is stale or its connection never owned the session |
| `Routing.RouteIsCurrentIff` | ailienant-core/api/websocket_manager.py:284-310 | a routed session is on the current socket of the connection it was attached to last if and only if that one was on its own socket then and has neither reconnected nor closed since |
| `Routing.MovedSessionLosesItsRoute` | ailienant-core/api/websocket_manager.py:308-309 | the smallest run in which a moved session is cut off by its former connection |
| `Routing.ReconnectLeavesStaleRoute` | ailienant-core/api/websocket_manager.py:284 | after a reconnect the session is still routed to the dead socket |
| `Routing.RecoveredConnectionIsCutOff` | ailienant-core/api/websocket_manager.py:407-415 | a message to a closed connection id makes another adopt it, whose close cuts off the reconnected client |
| `ConnectionManagers.ConnectionManager.constructor` | ailienant-core/api/websocket_manager.py:195-221 | a new manager is valid, shares nothing and holds nothing, so that it can be used at once |
| `ConnectionManagers.ConnectionManager.Disconnect` | ailienant-core/api/websocket_manager.py:312-383 | one close removes, for every owned id, its routes, bucket, waiter entries, reverse indexes and sessions, so that no session opened by one stays registered, and leaves events, results, buffers, queues, counters, pause flags and exit codes of all other ids as they were |
| `RequestDedup.RecentRequests.IsDuplicate` | ailienant-core/main.py:538-557 | the two pruning loops leave exactly the live, capped entries and answer from them |
| `RequestDedup.AnswersFromHistory` | ailienant-core/main.py:538-557 | the answer is yes if and only if the full history holds a recording of the id at most 120 s old with fewer than 256 later ones |
| `RequestDedup.CacheShape` | ailienant-core/main.py:533-557 | the map stays within 256 entries, sorted by time, with distinct ids |
| `RequestDedup.RepeatDoesNotRenew` | ailienant-core/main.py:539-543 | an id repeated within the window is forgotten 120 s after its first recording |
| `Consolidation.Registry.Start` | ailienant-core/main.py:634-664 | on the objects, the machine's step: the unfinished pass in the slot is cancelled, the new one captures the current epoch and takes the slot |
| `Consolidation.Registry.Abort` | ailienant-core/main.py:619-631 | on the objects, the machine's step: the epoch is bumped and the unfinished pass cancelled; without a project nothing happens |
| `Consolidation.Registry.IsStale` | ailienant-core/main.py:643-646 | the closure answers what the machine's stale check answers |
| `Consolidation.Registry.EvictTask` | ailienant-core/main.py:666-672 | on the objects, the machine's step: a finished pass frees the slot only if the slot still holds it |
| `Consolidation.Registry.DropProject` | ailienant-core/main.py:1916-1924 | on the objects, the machine's step: the pass is cancelled, slot and epoch go |
| `Consolidation.SoleActivePass` | ailienant-core/main.py:611-672 | over every run at most one pass of a project is uncancelled and unfinished; it is in the slot and its epoch is current |
| `Consolidation.ActiveIffNotInvalidated` | ailienant-core/main.py:619-641 | an unfinished pass is uncancelled if and only if no save, newer pass or disconnect hit its project since it started |
| `Consolidation.WriteSawNothing` | ailienant-core/brain/daemon.py:185-191 | a pass whose write begins, behind the stale check and the lock, saw no save, newer pass or disconnect of its project between its start and that moment |
| `Consolidation.CommitSawNoSave` | ailienant-core/brain/daemon.py:185-191 | in particular no save, despite the epoch reset |
| `Consolidation.EpochCountsSaves` | ailienant-core/main.py:616-628 | the epoch is the number of saves since the project was last dropped |
| `Consolidation.StaleIff` | ailienant-core/main.py:643-646 | a pass is stale if and only if the number of saves since the last drop differs from the one before its start |
| `Consolidation.StaleIffSaved` | ailienant-core/main.py:643-646 | without a disconnect of the project since its start, a pass is stale if and only if a save landed since |
| `Consolidation.SaveMissedIff` | ailienant-core/main.py:1916-1920 | the stale check misses a save if and only if the project was dropped since and has been saved since the last drop as often as before the start; the pass is then cancelled or over |
| `Consolidation.DisconnectHidesSave` | ailienant-core/main.py:1916-1920 | a save followed by a disconnect makes the pass look fresh, though it is cancelled |
| `Consolidation.CheckDecides` | ailienant-core/brain/daemon.py:185-188 | the check before the write lets a live pass go on if and only if the counter of its project is the one it captured, and ends it otherwise |
| `Consolidation.FinishedIsFinal` | ailienant-core/main.py:629-631 | over every continuation of a run, a finished pass is never cancelled or changed |
| `Consolidation.DisconnectedSaveIsNone` | ailienant-core/main.py:1912-1920 | after a disconnect the client is bound to no project, so that a save or a second disconnect of it does nothing |
| `GuardedSaves.AdmittedIffNotOverdrawn` | ailienant-core/main.py:1382-1396 | a file update reaches the registry if and only if it overdraws no window of its client's bucket |
| `GuardedSaves.PassSurvivesUpdateIffOverdrawn` | ailienant-core/main.py:1376-1396 | an update of a project leaves its live pass alive if and only if it overdraws a window of its client's bucket |
| `GuardedSaves.CommitMissedOnlyShedUpdates` | ailienant-core/main.py:1376-1396 | an update of the project between the start of a pass and its write was shed, because it overdrew its client's bucket |
| `GuardedSaves.ReapedClientIsAdmitted` | ailienant-core/api/websocket_manager.py:312-322 | after a close that reaps the client, its next update is always a save |
| `GuardedSaves.BurstIsMissed` | ailienant-core/main.py:1376-1396 | the smallest such run: a pass commits although the 101st update of an instant came while it was under way |
| `EditParser.ParseBlocks` | ailienant-core/agents/coder.py:169-230 | the nested loops compute what a one-line-at-a-time automaton computes, which reads every complete block as the edit its text carries (`EditRoundTrip.AnyBlockParses`) |
| `EditParser.LinePrefixParse` | ailienant-core/agents/coder.py:176-180 | parsing any prefix of the lines gives a prefix of the edits |
| `EditParser.TruncatedParse` | ailienant-core/agents/coder.py:176-228 | cut at any character, the complete lines give a prefix of the edits, and the partial line adds one if and only if it happens to close an open block that has a path |
| `EditParser.ProseChangesNothing` | ailienant-core/agents/coder.py:169-174 | lines outside blocks that do not start with the edit header change nothing |
| `BlockCleaning.CleanedIffCarried` | ailienant-core/agents/coder.py:146-150 | cleaning a block gives t if and only if its text is t between newlines or, between newlines, one fence with an info word around t between newlines |
| `BlockCleaning.WrappedIff` | ailienant-core/agents/coder.py:147-148 | the line test for a wrapping fence holds if and only if the text is some inner text between an opening and a closing fence line |
| `Text.SplitExact` | ailienant-core/agents/coder.py:182 | an unbroken text is one line; each break ends a line, CR LF as one |
| `Text.StripExact` | ailienant-core/agents/coder.py:186 | stripping takes exactly the space around a text that neither starts nor ends with space |
| `Text.TrimExact` | ailienant-core/agents/coder.py:146 | trimming takes exactly the newlines around a text |
| `EditRoundTrip.CleanIff` | ailienant-core/agents/coder.py:135-150 | border cleaning returns the printed text if and only if it has newlines only inside and no wrapping fence |
| `EditRoundTrip.FeedGood` | ailienant-core/agents/coder.py:181-229 | every parsed edit has a nonempty trimmed path and border-clean blocks |
| `EditRoundTrip.PrintableParses` | ailienant-core/agents/coder.py:185-228 | a printable edit is read back and leaves the parser between blocks |
| `EditRoundTrip.AnyBlockParses` | ailienant-core/agents/coder.py:183-229 | every complete block is read as exactly the edit its text carries, whatever is around it: space around path and markers, lines before the search marker, newlines and one fence around either part, code glued to the terminator; without a path it yields nothing, and what follows is parsed on its own |
| `EditRoundTrip.FencedEditParses` | ailienant-core/agents/coder.py:146-150 | wrapping the search, the replacement or both in a fence with an info word does not change what a printed edit is read as |
| `EditRoundTrip.TerminatesIff` | ailienant-core/agents/coder.py:163-165 | a line closes a block if and only if it ends with the terminator, space apart |
| `EditRoundTrip.UnprintableDiffers` | ailienant-core/agents/coder.py:135-228 | an edit that is not printable is not read back, whatever follows it |
| `EditRoundTrip.RoundTripIffPrintable` | ailienant-core/agents/coder.py:789-804 | for every list of edits, parsing the printed text returns the list if and only if every edit is printable: trimmed unbroken nonempty path, newlines only inside the parts and no wrapping fence, no line that reads "=======" in the search, none that ends with the terminator in the replacement |
| `PatchOverlay.ApplyEdit` | ailienant-core/agents/coder.py:1056-1087 | an edit reads the last in-step write, else the in-run content, else the workspace text, and writes its own path only if it succeeds there |
| `PatchOverlay.Emit` | ailienant-core/agents/coder.py:1089-1104 | a path is emitted exactly when its text differs from the workspace, with diff and hash against the workspace |
| `PatchOverlay.RunStep` | ailienant-core/agents/coder.py:1045-1104 | a step emits, for every path, the result of its edits in order, with diff and base hash against the workspace text, and its contents are those of the machine's step |
| `PatchOverlay.OneEdit` | ailienant-core/agents/coder.py:1071-1087 | a step with one edit emits the patched text, search and replacement in that order, for an anchor of at least ten characters, the replacement as the whole file for a shorter one, and nothing without a path, a match or a difference from the workspace |
| `PatchOverlay.AnchoredEdit` | ailienant-core/agents/coder.py:1083-1085 | an anchor that occurs once in the latest text is replaced where it stands, and the text around it stays |
| `PatchOverlay.TwoEditsOfOneFile` | ailienant-core/agents/coder.py:1056-1066 | the second of two edits of a file is applied to what the first made of it |
| `PatchOverlay.TwoFiles` | ailienant-core/agents/coder.py:1068-1087 | edits of different files do not see each other |
| `PatchOverlay.WrittenAppend` | ailienant-core/agents/coder.py:1068-1087 | applying two lists of edits in a row is applying their concatenation |
| `PatchOverlay.LatestOfSteps` | ailienant-core/agents/coder.py:1048-1063 | with steps only, what the next step should read is the workspace text after all edits of all steps, in order |
| `PatchOverlay.StepAgrees` | ailienant-core/brain/state.py:709 | a step, a save or a declined proposal keeps what the next step reads right if and only if it does not lose the path |
| `PatchOverlay.OverlayIsSequentialIff` | ailienant-core/brain/apply_gate.py:522-672 | over any run of steps, approvals, changed approvals, declines and saves, every step reads a path as it should if and only if none of them loses it: a revert of an unapplied change, or carried text other than what reaches or stays in the workspace |
| `PatchOverlay.RevertIsLost` | ailienant-core/agents/coder.py:1101-1104 | a step that takes a changed file back to its workspace text is not seen by the next one |
| `PatchOverlay.AppliedRevertIsKept` | ailienant-core/brain/apply_gate.py:626-668 | once the change has been applied, the same step is emitted and seen |
| `PatchOverlay.ModifiedApprovalIsLost` | ailienant-core/brain/apply_gate.py:532-536 | the operator's version reaches the workspace, and the next step reads the coder's |
| `PatchOverlay.DeclinedProposalStays` | ailienant-core/brain/apply_gate.py:361-383 | the next step reads a proposal that was declined |
| `AccessHeatmap.SessionAccessHeatmap.Bump` | ailienant-core/agents/recency.py:111-125 | the loop bumps the nonempty paths in order |
| `AccessHeatmap.SessionAccessHeatmap.BumpOne` | ailienant-core/agents/recency.py:116-120 | one bump counts the key, moves it to the end and evicts the oldest on overflow |
| `AccessHeatmap.SessionAccessHeatmap.Get` | ailienant-core/agents/recency.py:127-129 | the count of the file's key, zero if it is not resident |
| `AccessHeatmap.BumpedKeysOf` | ailienant-core/agents/recency.py:107-116 | of a call, each nonempty path is bumped in its place under the project id, two colons and the path, and each empty one is skipped |
| `AccessHeatmap.ResidentAreMostRecent` | ailienant-core/agents/recency.py:111-125 | after any trace the resident keys are the most recently bumped distinct keys, in order of last bump |
| `AccessHeatmap.ResidentIff` | ailienant-core/agents/recency.py:119-120 | a key is resident if and only if fewer distinct keys than the capacity were bumped after it |
| `AccessHeatmap.CountSinceResident` | ailienant-core/agents/recency.py:117-120 | a resident key's count is its bumps since it last became resident |
| `AccessHeatmap.CountsWithoutEviction` | ailienant-core/agents/recency.py:117 | if nothing was evicted every count is the total number of bumps |
| `AccessHeatmap.ProjectsCollideIff` | ailienant-core/agents/recency.py:107-109 | two projects can share a key if and only if one id with its separator begins the other |
| `AccessHeatmap.TenantsAreIsolated` | ailienant-core/agents/recency.py:99-109 | ids without a colon never share a key, and within a project keys tell files apart |
| `Interview.AnswersMeetTheirBatch` | ailienant-core/agents/analyst.py:337-413 | over every session of turns, an answer is recorded against the batch just shown, what is shown is the batch committed last and not yet answered (but for an abandoned turn that was rolled back), and an interview completes at most seven node steps |
| `InterviewTranscript.ResumeRecordsTheExchange` | ailienant-core/agents/analyst.py:224-250 | at every point of every session, answering the batch shown adds exactly two messages: a line "- header: question" per question of that batch, and per answer, in order, the header of the question with its id (else the id), a colon and the labels, else the free text, else "(no answer)"; without answers a note says so |
| `InterviewTranscript.RoundOutcome` | ailienant-core/agents/analyst.py:415-594 | entered with nothing pending, the node generates if and only if rounds are left and the request does not merely agree; request and notice go on record, and the interview ends, loops or hands off, exactly in the cases stated |
| `InterviewTranscript.CoverageSettledIff` | ailienant-core/brain/ideation.py:599-616 | the coverage stop holds if and only if there are axes and each is "none", "nothing", "n/a" or "-", in any case and between space |
| `Interview.ResumeNeverGenerates` | ailienant-core/agents/analyst.py:380-413 | at any point of a session, a replay's outcome does not depend on what the model would generate, and completes one step |
| `Interview.InterviewEnds` | ailienant-core/agents/analyst.py:458-467 | wherever in a session it starts, an interview reaches the handoff or the end within ten deliveries |
| `Interview.CommittedIsAskedIff` | ailienant-core/brain/ideation.py:599-650 | however the turn goes on, a committed batch is asked in it if and only if the axes on record are not all settled and the node is entered again |
| `Interview.LeftoverIsShownFirst` | ailienant-core/core/task_service.py:720-808 | a batch left pending is what the next turn asks first, whatever its request |
| `Interview.SettledBatchIsAskedNextTurn` | ailienant-core/core/task_service.py:720-808 | the smallest such session: a batch committed with the axes "none" is not asked in its interview, however it goes on, and is asked first in the next turn |
| `Interview.MayAskIffNotBarren` | ailienant-core/agents/analyst.py:356-467 | a turn can ask a question of its own if and only if rounds are left and, with a leftover batch, its axes are not all settled, or else the request does not merely agree before the first round |
| `Interview.SpentForGood` | ailienant-core/core/task_service.py:752-780 | once an interview has used its rounds, no later turn of the session composes a question |
| `Interview.HeaderCorrelates` | ailienant-core/agents/analyst.py:237-250 | with distinct ids each answer is shown under the header of its own question |
| `CoverageAxes.ParseCoverageAxes` | ailienant-core/agents/analyst.py:752-769 | fails if and only if the text ends with the marker; otherwise the first eight usable axes of the line behind the last marker |
| `CoverageAxes.CollectedShape` | ailienant-core/agents/analyst.py:764-769 | what is collected is distinct and is exactly the nonempty cleaned fields of at most 60 characters |
| `CoverageAxes.CollectedInOrder` | ailienant-core/agents/analyst.py:764-768 | the axes come in the order in which the line first names them |
| `CoverageAxes.CleanAxisExact` | ailienant-core/agents/analyst.py:766 | a field loses exactly the space around it, the decoration inside that and the space inside the decoration |
| `CoverageAxes.CommasSeparate` | ailienant-core/agents/analyst.py:765 | the fields are what stands between the commas |
| `CoverageAxes.LastIndexIsLast` | ailienant-core/agents/analyst.py:760 | the marker found is the last one |
| `Stylesheet.Scan` | ailienant-extension/esbuild.js:224-288 | the index loop gives the verdict, with its line numbers, of the recursive judgement |
| `Stylesheet.SkipString` | ailienant-extension/esbuild.js:249-265 | where a string ends, escapes included, or that it holds a raw newline |
| `Stylesheet.IndexOfCommentEnd` | ailienant-extension/esbuild.js:238-242 | the next comment terminator, if any |
| `Stylesheet.CommentEndIsFirst` | ailienant-extension/esbuild.js:237-246 | a comment ends at the first star and slash behind its opening, and nowhere if there is none |
| `Stylesheet.StringEndIs` | ailienant-extension/esbuild.js:248-264 | a string takes escape pairs and other characters but quote, backslash and newline, up to its quote, or runs off the end of the sheet |
| `Stylesheet.StringRefusedIff` | ailienant-extension/esbuild.js:251-260 | a string is refused if and only if such a body is followed by a raw newline |
| `Stylesheet.BalancedMatches` | ailienant-extension/esbuild.js:267-277 | completeness: a word of the balanced grammar leaves the bracket stack as it was |
| `Stylesheet.MatchDecomposes` | ailienant-extension/esbuild.js:267-286 | soundness: what empties the stack decomposes into balanced words and the closers due |
| `Stylesheet.JudgeIsMatch` | ailienant-extension/esbuild.js:233-286 | from any point, a sheet is accepted exactly when its comments and strings are well formed and its brackets empty the stack; a bracket reported as never closed is the outermost one left |
| `Stylesheet.AcceptsIffBalanced` | ailienant-extension/esbuild.js:224-288 | a sheet passes if and only if every comment closes, no string holds an unescaped newline, and the other brackets form a word of the grammar whose productions are "{" "}", "(" ")" and "[" "]" around a word, followed by a word |
| `Stylesheet.VerdictIsLocated` | ailienant-extension/esbuild.js:231-286 | on a sheet without escaped newlines every report names a character that stands on the line it gives, and a closer fails only against an opened bracket of another kind |
| `Stylesheet.EscapedNewlineShiftsReports` | ailienant-extension/esbuild.js:249-264 | a concrete sheet whose report is a line too low |
| `Orchestrator.RunProgress` | ailienant-core/agents/orchestrator.py:45-68 | over every run settled steps never change, the current step never moves back, and each visit uses up the budget if retries count past the ceiling |
| `Orchestrator.AnswersTheFirstOpenStep` | ailienant-core/agents/orchestrator.py:107-188 | the node fails the first open step at a count of three, else dispatches it and sets it in progress unless it is; no other step changes, and the alert is raised exactly for scores below 40 |
| `Orchestrator.AnswersWithoutOpenStep` | ailienant-core/agents/orchestrator.py:102-116 | an error exactly without a plan, the final flag exactly when every step is completed or failed |
| `Orchestrator.SoleStepInProgress` | ailienant-core/agents/orchestrator.py:156-188 | over every run of a plan that starts without a step in progress, whenever a step is dispatched it is in progress and no other is |
| `Orchestrator.NothingCountedWithoutRetry` | ailienant-core/agents/orchestrator.py:118-141 | a run in which every step completes at its first report counts no retry and fails no step |
| `Orchestrator.AllCompleteWithin` | ailienant-core/agents/orchestrator.py:109-141 | with n distinct step numbers and a downstream that counts past the ceiling, everything is settled after 4 n visits |
| `Orchestrator.TerminatesIffCountsPastCeiling` | ailienant-core/brain/guardrails.py:84-100 | a plan with an open step is always completed within that bound if and only if the downstream goes on counting past the ceiling |
| `Orchestrator.SettledForever` | ailienant-core/agents/orchestrator.py:45-55 | a settled step is unchanged by any continuation |
| `Orchestrator.DispatchInOrder` | ailienant-core/agents/orchestrator.py:45-55 | over every run steps are worked on from first to last and never revisited, and every step before the current one is settled for good |
| `Orchestrator.GivesUpAfter` | ailienant-core/agents/orchestrator.py:118-141 | a step that only retries is given up on exactly when the count exceeds the ceiling, and no other step changes meanwhile |
| `Orchestrator.RejectedIsRedispatched` | ailienant-core/brain/state.py:105-112 | a rejected step is dispatched again if and only if every earlier step is settled |
| `InlineEdit.StreamInlineEdit` | ailienant-core/agents/inline_edit.py:81-158 | the generator yields the specified stream for every model stream, cancellation and validator |
| `InlineEdit.StreamOutcome` | ailienant-core/agents/inline_edit.py:100-158 | behind the delete come the nonempty chunks in order, each accepted with all before it, up to the first arrival that finds a cancellation or is rejected; the abort names that reason, the fault or the cancelled task, and there is none when the answer ends |
| `InlineEdit.StreamShape` | ailienant-core/agents/inline_edit.py:90-158 | one leading delete, contiguous nonempty inserts, nothing behind an abort |
| `InlineEdit.ReplayIsReplacement` | ailienant-core/tools/inline_patch_validator.py:49-74 | replaying any nonempty prefix gives the file with the selection, clamped to the file, replaced by the chunks so far |
| `InlineEdit.DeltasInRangeIff` | ailienant-core/agents/inline_edit.py:81-98 | every delta lies inside the buffer it applies to if and only if the selection starts inside the file |

## Left out

- HTTP and WebSocket endpoints, authentication, the application lifespan and payload wrapping: transport.
- Model calls, prompts, retrieval and context assembly: model output is an arbitrary input.
- The planner's retry loop, budget arithmetic and the dashboards.
- The half-life decay of the recency score: real exponentials.
- SHA-256, base64 and difflib: a hash is any function, a chunk decodes or fails, a diff is empty exactly when the texts are equal.
- Exact, normalised and fuzzy patch matching in `tools/patch_tool.py`: any function of content, search and replacement that succeeds or fails.
- The syntax validator of inline edits: any predicate on the deltas so far.
- The open-result events of an interactive session: their outcomes appear as the close event that unregisters the session.
- The budget-capped live forwarding of exec output to the timeline: it never touches the buffers modelled here.
- The futures behind a bridge session's `run`: the codes handed to them are modelled, the futures are not.
- Teardown of a bridge session as an object: its steps are events of the pipeline (close, join timeout), not methods.
- Exec streams with a name other than `stdout` and `stderr`: the result never reads them.
- The limit the Python runtime puts on the digits of an exit code.
- Letters beyond ASCII in a fence's info word, and beyond ASCII in lower-casing axis sentinels.
- Logging, narration, audit rows, session-cleanup hooks and telemetry.
- The two shapes of the context metrics the orchestrator tolerates: the score is an input.
- Consolidation.Registry.Start: of the body of a pass only the stale check, the beginning of the write and the end are modelled; a save while the write is under way is not.
- Interview.AnswersMeetTheirBatch: reasoning log and tool trace are not part of the state; whether the checkpoint keeps what an abandoned interview had done is left open, and both cases are covered.
- InboundGuard.RefusedIffOverdrawn: exact over real numbers, not over binary floating point.
- Orchestrator.AllCompleteWithin: assumes distinct step numbers.
- The syntax, lint and permission gates in front of a write, multi-file writes and command steps: a proposal is committed, with whatever text, or discarded.
