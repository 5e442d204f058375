# Verification of srvlog's live log protocol, truncation, UDP hand-off, paging and parsers

srvlog collects logs from syslog, UDP and other sources, keeps the newest ones in memory, shows
them live to web clients and stores them. This project models the parts of it that carry state,
loops or arithmetic, and proves what they promise.

- **Live store and protocol.** `InMemoryLogStorage.dfy` is the ring buffer, `LogBroadcastingService.dfy`
  the map host -> program -> ring and the sessions, as heap objects; `WebSocketLogEndpoint.dfy` and
  `LogCollector.dfy` are the callbacks and the entry point. Each handler is proved to take a step of
  `SessionProtocol.dfy`, a state machine over the plain history of received logs, and the promises
  about whole runs are proved there and in `SessionTraces.dfy`: exact traces and coverage. `LogModel.dfy` has the log record,
  stable sorting by date and what a bounded store keeps of a history.
- **The same protocol interleaved.** `InterleavedBroadcast.dfy` splits the handlers where other
  threads can come between: ring add, start of a broadcast pass, check of one session, send, read of
  one ring, snapshot, activation. Time is a counter of steps. `BroadcastFates.dfy` says from the order of
  these moments what a client receives, in snapshots and live, over all its subscriptions;
  `InterleavedCoverage.dfy` says what is left of coverage, and `BroadcastRuns.dfy` has the concrete runs.
  `UninterruptedHandlers.dfy` proves that the atomic protocol is part of the interleaved one.
- **Truncation.** `Utf8.dfy` (RFC 3629, RFC 2781) and `Truncation.dfy`.
- **UDP hand-off.** `UdpHandoff.dfy` is the step system of the two threads, `UdpServer.dfy` the objects with
  the one reused receive buffer; `Serve` drives them through any run.
- **Paging.** `Paging.dfy`, with Java's int arithmetic.
- **Parsers and printers.** `HexPayload.dfy`, `SnortSignature.dfy`, `SyslogTag.dfy`, `HostList.dfy`, over the Java
  strings of `JavaText.dfy` (sequences of UTF-16 code units, `split` with its dropped trailing pieces).

Choices made outside the modelled code are parameters: which sends fail, the current time, the
order in which maps are iterated, the datagrams that arrive, the rows a data provider has.
`dafny verify dfyconfig.toml` checks everything.

## Where the code differs from what one would expect

- A session removed before its request is handled still receives the snapshot, then an error, and
  is not subscribed (`SnapshotWithoutSubscription`).
- Coverage holds for atomic handlers (`CoverageInvariant`) and not for the real interleaving: a log
  added after the ring was read and checked before the activation is lost (`LossHappens`), and a
  log can come twice (`DuplicateHappens`). `CoverageExactly`, `LossExactly` and `DuplicateExactly` say when.
- A session may ask again while it is subscribed. Then its old subscription can bring a log live
  that the new snapshot has too (`DuplicateOfEarlierSubscription`), or that the new subscription
  would have lost (`RescueByEarlierSubscription`).
- Truncation to nothing gives an empty string, and truncating that gives null
  (`TruncateStringComposes`); a lone surrogate becomes a question mark when a string is cut
  (`CutIsPrefixIffWellFormed`).
- The list view counts as empty before anything was fetched (`EmptyIffNothingFetched`), so a
  navigator asked before its list view hides itself; with the largest int as page size nothing is
  shown (`LargestPageSizeShowsNothing`).
- The text area filled with unprocessed hosts is read back exactly when the last name does not
  occur before (`PrefilledIsSaved`, `RepeatedHostIsMerged`).
- A printed signature with a negative number is not read back (`ReadBackIffNonNegative`).
- A tag prefix made of spaces only raises an exception (`FailsIffOnlySpaces`).
- The comment on the UDP server says that datagrams are discarded silently; the code logs them. Logging
  is not modelled.

## Model

| member | source | states |
|---|---|---|
| LogStorage.InMemoryLogStorage.constructor | srvlog-service/src/main/java/com/payneteasy/srvlog/service/impl/InMemoryLogStorage.java:17-21 | the buffer starts empty, with any number of slots, none included |
| LogStorage.InMemoryLogStorage.Add | srvlog-service/src/main/java/com/payneteasy/srvlog/service/impl/InMemoryLogStorage.java:23-34 | one slot is overwritten, the history of adds grows by the log, and the ring shape (pointer = number of adds modulo capacity) is kept; without slots an exception |
| LogStorage.InMemoryLogStorage.AsLogList | srvlog-service/src/main/java/com/payneteasy/srvlog/service/impl/InMemoryLogStorage.java:36-52 | date-sorted list that is a permutation of the newest min(k, capacity) logs; an exception exactly when there are two or more and one has no date |
| LogStorage.SlotHoldsNewest | srvlog-service/src/main/java/com/payneteasy/srvlog/service/impl/InMemoryLogStorage.java:23-34 | slot i holds the newest log whose index is congruent to i, and is null only when there is none |
| LogStorage.RingHoldsNewest | srvlog-service/src/main/java/com/payneteasy/srvlog/service/impl/InMemoryLogStorage.java:38-45 | whatever the pointer, the non-null slots are exactly the newest min(k, capacity) logs of the history |
| LogModel.SortFacts | srvlog-service/src/main/java/com/payneteasy/srvlog/service/impl/InMemoryLogStorage.java:47-49 | sorting by date gives a date-sorted permutation |
| LogModel.SortStable | srvlog-service/src/main/java/com/payneteasy/srvlog/service/impl/InMemoryLogStorage.java:47-49 | logs of equal date keep their order |
| LogModel.StableSortUnique | srvlog-service/src/main/java/com/payneteasy/srvlog/service/impl/LogBroadcastingServiceImpl.java:110-114 | only one arrangement is date-sorted and stable, so any stable sort returns the modelled one |
| LogModel.SortedIsOldestFirst | srvlog-service/src/main/java/com/payneteasy/srvlog/service/impl/InMemoryLogStorage.java:47-49 | date-sorted means that the dates are present and do not decrease |
| LogModel.HeldOfPair | srvlog-service/src/main/java/com/payneteasy/srvlog/service/impl/LogBroadcastingServiceImpl.java:95-108 | the logs a query can find are, pair by pair, the newest capacity logs of each requested pair, each pair once even when names repeat |
| LogModel.HeldCount | srvlog-service/src/main/java/com/payneteasy/srvlog/service/impl/LogBroadcastingServiceImpl.java:95-108 | how often any log is found: as often as in the ring of its own pair when that is requested, and never otherwise |
| LogModel.HeldSnoc | srvlog-service/src/main/java/com/payneteasy/srvlog/service/impl/LogBroadcastingServiceImpl.java:200-201 | storing one more log brings at most that log into a query result |
| LogBroadcasting.LogBroadcastingService.constructor | srvlog-service/src/main/java/com/payneteasy/srvlog/service/impl/LogBroadcastingServiceImpl.java:52-54 | the service starts with no logs and no sessions |
| LogBroadcasting.LogBroadcastingService.Configured | srvlog-service/src/main/java/com/payneteasy/srvlog/service/impl/LogBroadcastingServiceImpl.java:47-50 | a capacity that is not positive is replaced by 1000 |
| LogBroadcasting.SortNames | srvlog-service/src/main/java/com/payneteasy/srvlog/service/impl/LogBroadcastingServiceImpl.java:58-59 | the names of a set in strictly ascending String order, each once |
| LogBroadcasting.LogBroadcastingService.StoredIffReceived | srvlog-service/src/main/java/com/payneteasy/srvlog/service/impl/LogBroadcastingServiceImpl.java:192-198 | a ring exists for a pair exactly when a log of the pair was received |
| LogBroadcasting.LogBroadcastingService.GetHostNameList | srvlog-service/src/main/java/com/payneteasy/srvlog/service/impl/LogBroadcastingServiceImpl.java:57-62 | strictly ascending, each once, and exactly the hosts ever received |
| LogBroadcasting.LogBroadcastingService.GetProgramNameList | srvlog-service/src/main/java/com/payneteasy/srvlog/service/impl/LogBroadcastingServiceImpl.java:65-77 | strictly ascending, each once, and exactly the programs ever received, over all hosts |
| LogBroadcasting.LogBroadcastingService.GetLogDataListByHostAndProgram | srvlog-service/src/main/java/com/payneteasy/srvlog/service/impl/LogBroadcastingServiceImpl.java:80-90 | date-sorted permutation of the last min(k, capacity) logs of that pair in the plain history of received logs; empty for an unknown pair |
| LogBroadcasting.LogBroadcastingService.GetLogDataListByHostsAndPrograms | srvlog-service/src/main/java/com/payneteasy/srvlog/service/impl/LogBroadcastingServiceImpl.java:93-115 | date-sorted, and its multiset is the union of the requested rings, each once, whatever the map order; an exception exactly when a date needed for sorting is missing |
| LogBroadcasting.LogBroadcastingService.SaveBroadcastingSession | srvlog-service/src/main/java/com/payneteasy/srvlog/service/impl/LogBroadcastingServiceImpl.java:118-120 | the session gets the given subscription and no other session changes |
| LogBroadcasting.LogBroadcastingService.RemoveBroadcastingSession | srvlog-service/src/main/java/com/payneteasy/srvlog/service/impl/LogBroadcastingServiceImpl.java:123-125 | the heap service takes the removal step of the protocol |
| LogBroadcasting.LogBroadcastingService.HandleLogBroadcastingRequest | srvlog-service/src/main/java/com/payneteasy/srvlog/service/impl/LogBroadcastingServiceImpl.java:128-182 | every branch and failure of the handler is the request step of the protocol, and what the query found is a possible answer for the plain history |
| LogBroadcasting.LogBroadcastingService.AnswerRequest | srvlog-service/src/main/java/com/payneteasy/srvlog/service/impl/LogBroadcastingServiceImpl.java:152-163 | the snapshot is sent before the subscription is replaced; with the session gone the snapshot is followed by an error reply |
| LogBroadcasting.LogBroadcastingService.HandleReceivedLogData | srvlog-service/src/main/java/com/payneteasy/srvlog/service/impl/LogBroadcastingServiceImpl.java:185-203 | the two-level store of rings refines a plain history: the handler appends to it and broadcasts, and leaves the rings of other pairs alone |
| LogBroadcasting.LogBroadcastingService.ComputeIfAbsent | srvlog-service/src/main/java/com/payneteasy/srvlog/service/impl/LogBroadcastingServiceImpl.java:192-198 | exactly the ring of the pair is created when it is missing; all other rings stay the same objects |
| LogBroadcasting.LogBroadcastingService.Push | srvlog-service/src/main/java/com/payneteasy/srvlog/service/impl/Subscription.java:38-42 | one turn of the broadcast loop: only a session that is online and asks for the host and the program gets a successful response with the one log, or is removed when sending fails |
| LogBroadcasting.LogBroadcastingService.BroadcastLogDataToSubscribers | srvlog-service/src/main/java/com/payneteasy/srvlog/service/impl/LogBroadcastingServiceImpl.java:205-238 | the loop that removes while it iterates has the effect of visiting every session once, in any order |
| SessionProtocol.ReadsIffWellPosed | srvlog-service/src/main/java/com/payneteasy/srvlog/service/impl/LogBroadcastingServiceImpl.java:131-150 | a request reaches the query exactly when it has a valid state, hosts and programs and passes the state check |
| SessionProtocol.RequestChangesSubscriptionIffAccepted | srvlog-service/src/main/java/com/payneteasy/srvlog/service/impl/LogBroadcastingServiceImpl.java:128-182 | a rejected or failed request never changes a subscription, an accepted one replaces that of its own session only; no other session receives anything |
| SessionProtocol.RequestDelivers | srvlog-service/src/main/java/com/payneteasy/srvlog/service/impl/LogBroadcastingServiceImpl.java:152-181 | apart from error replies a request delivers its snapshot when it can be sent, and nothing otherwise |
| SessionProtocol.RepliesExactly | srvlog-service/src/main/java/com/payneteasy/srvlog/service/impl/LogBroadcastingServiceImpl.java:128-182 | every reply to every request, written out: nothing to an ignored one, the message about incorrect parameters to an empty one, the snapshot to a well-posed one, and a server error wherever something fails |
| SessionProtocol.SnapshotWithoutSubscription | srvlog-service/src/main/java/com/payneteasy/srvlog/service/impl/LogBroadcastingServiceImpl.java:156-177 | a corner of the code: a session that is no longer registered still gets a full snapshot and then an error, and is not subscribed |
| SessionProtocol.LogDelivers | srvlog-service/src/main/java/com/payneteasy/srvlog/service/impl/LogBroadcastingServiceImpl.java:205-238 | a log reaches exactly the online candidates whose send works; exactly the candidates whose send fails are removed |
| SessionProtocol.SubscribedTrace | srvlog-service/src/main/java/com/payneteasy/srvlog/service/impl/LogBroadcastingServiceImpl.java:128-238 | while nothing ends it, a subscription receives exactly the later matching logs, in order of arrival |
| SessionProtocol.EpisodeTrace | srvlog-service/src/main/java/com/payneteasy/srvlog/service/impl/LogBroadcastingServiceImpl.java:128-238 | exact trace of an accepted request: the date-sorted query result of that moment, then exactly the later matching logs in order, until the next accepted request, a failed send or removal |
| SessionProtocol.EpisodeLogs | srvlog-service/src/main/java/com/payneteasy/srvlog/service/impl/LogBroadcastingServiceImpl.java:152-238 | the logs an accepted request brings are exactly those of its snapshot and then the later matching ones, each once |
| SessionProtocol.QuietTrace | srvlog-service/src/main/java/com/payneteasy/srvlog/service/impl/LogBroadcastingServiceImpl.java:205-238 | while a session is not subscribed and sends nothing that could be answered, it receives no logs |
| SessionProtocol.CoverageInvariant | srvlog-service/src/main/java/com/payneteasy/srvlog/service/impl/LogBroadcastingServiceImpl.java:128-238 | in every reachable state the current query result of every online session is a sub-multiset of what it was sent since its last accepted request, through eviction, failed sends and new subscriptions |
| SessionTraces.HistoryIsLogged | srvlog-service/src/main/java/com/payneteasy/srvlog/service/impl/LogBroadcastingServiceImpl.java:185-203 | after any run the stored history is exactly the received logs that have a host and a program, in order |
| SessionTraces.StatusExactly | srvlog-service/src/main/java/com/payneteasy/srvlog/service/impl/LogBroadcastingServiceImpl.java:117-238 | in every run the service holds for each session what the events alone say: unknown, registered, or subscribed to certain hosts and programs |
| SessionTraces.RegisteredExactly | srvlog-service/src/main/java/com/payneteasy/srvlog/service/impl/LogBroadcastingServiceImpl.java:117-125 | in every run a session is registered exactly when it was opened and has since neither been removed nor missed a log it is subscribed to |
| SessionTraces.OpenedIsAccepted | srvlog-service/src/main/java/com/payneteasy/srvlog/service/impl/LogBroadcastingServiceImpl.java:134-163 | a session so opened that asks with state INITIAL is accepted and subscribed once its snapshot can be sent |
| SessionTraces.MarkIsLastAccepted | srvlog-service/src/main/java/com/payneteasy/srvlog/service/impl/LogBroadcastingServiceImpl.java:156-163 | what coverage is counted from is what the session had received when its last accepted request came |
| SessionTraces.SubscribedExactly | srvlog-service/src/main/java/com/payneteasy/srvlog/service/impl/LogBroadcastingServiceImpl.java:128-238 | in every run, a session is subscribed to hosts and programs exactly when an earlier request of it for them was accepted and nothing has ended that since |
| SessionTraces.LogDeliveredExactly | srvlog-service/src/main/java/com/payneteasy/srvlog/service/impl/LogBroadcastingServiceImpl.java:205-238 | in every run, a received log is delivered to a session exactly when such a subscription asks for it and the send works |
| SessionTraces.WholeTrace | srvlog-service/src/main/java/com/payneteasy/srvlog/service/impl/LogBroadcastingServiceImpl.java:128-238 | in every run from the start, all that a session has received apart from error replies: one snapshot per answered request and exactly the logs it wanted, in the order of events |
| WebSocketEndpoint.WebSocketLogEndpoint.OnWebSocketOpen | srvlog-web/src/main/java/com/payneteasy/srvlog/websocket/jetty/WebSocketLogEndpoint.java:23-27 | opening is the registration step of the protocol, with the initial subscription |
| WebSocketEndpoint.WebSocketLogEndpoint.OnWebSocketClose | srvlog-web/src/main/java/com/payneteasy/srvlog/websocket/jetty/WebSocketLogEndpoint.java:29-33 | closing is the removal step for the own session, and the latch is counted down to no less than 0 |
| WebSocketEndpoint.WebSocketLogEndpoint.OnWebSocketText | srvlog-web/src/main/java/com/payneteasy/srvlog/websocket/jetty/WebSocketLogEndpoint.java:35-38 | a text is the request step for the own session |
| WebSocketEndpoint.WebSocketLogEndpoint.OnWebSocketError | srvlog-web/src/main/java/com/payneteasy/srvlog/websocket/jetty/WebSocketLogEndpoint.java:40-44 | an error is the removal step for the own session |
| InterleavedBroadcast.StepKeepsInv | srvlog-service/src/main/java/com/payneteasy/srvlog/service/impl/LogBroadcastingServiceImpl.java:152-163 | every interleaved step keeps the invariant that ties snapshots, activations, checks and sends to the times at which they happened |
| InterleavedBroadcast.ReadingExtended | srvlog-service/src/main/java/com/payneteasy/srvlog/service/impl/LogBroadcastingServiceImpl.java:97-108 | a ring read finds exactly what that ring holds at that moment |
| InterleavedBroadcast.FreshCheck | srvlog-service/src/main/java/com/payneteasy/srvlog/service/impl/LogBroadcastingServiceImpl.java:224-236 | a check sends exactly when the subscription of the last activation matches the log |
| BroadcastFates.ReachableInv | srvlog-service/src/main/java/com/payneteasy/srvlog/service/impl/LogBroadcastingServiceImpl.java:128-238 | the invariant holds after every interleaving of adds, passes, checks, sends, ring reads, activations and removals |
| BroadcastFates.SnapshotExactly | srvlog-service/src/main/java/com/payneteasy/srvlog/service/impl/LogBroadcastingServiceImpl.java:152-156 | any snapshot ever sent holds a log it asks for exactly when the log was added before its ring was read and not overwritten by then, and no other log |
| BroadcastFates.ActivationsTakeTurns | srvlog-service/src/main/java/com/payneteasy/srvlog/service/impl/LogBroadcastingServiceImpl.java:152-163 | every activation follows its own snapshot and precedes the next one |
| BroadcastFates.SentLiveOnlyIfChecked | srvlog-service/src/main/java/com/payneteasy/srvlog/service/impl/LogBroadcastingServiceImpl.java:224-231 | a log is sent live only after its pass checked the session, after its add, and for the subscription in force at the check |
| BroadcastFates.AskedIsSent | srvlog-service/src/main/java/com/payneteasy/srvlog/service/impl/LogBroadcastingServiceImpl.java:227-236 | a pass that is over has sent the log to every session still registered whose subscription at the check asked for it |
| BroadcastFates.FateOfLog | srvlog-service/src/main/java/com/payneteasy/srvlog/service/impl/LogBroadcastingServiceImpl.java:152-238 | for a session registered when the pass starts: the log was sent live at all exactly when some subscription, old or new, that asks for it was in force at the check; each snapshot has it exactly when the ring held it at the read |
| BroadcastFates.DuplicateExactly | srvlog-service/src/main/java/com/payneteasy/srvlog/service/impl/LogBroadcastingServiceImpl.java:152-238 | in a snapshot and live at all, exactly: added before that snapshot read the ring, not evicted by then, and checked while some subscription of the session asked for it |
| BroadcastFates.DuplicateWindow | srvlog-service/src/main/java/com/payneteasy/srvlog/service/impl/LogBroadcastingServiceImpl.java:152-238 | the window "ring read and activation fall between add and check" holds of a duplicate exactly when no earlier subscription of the session asked for the log at its check |
| BroadcastFates.LossExactly | srvlog-service/src/main/java/com/payneteasy/srvlog/service/impl/LogBroadcastingServiceImpl.java:152-238 | in no snapshot and never live, exactly, over all snapshots sent and all subscriptions: every ring read came before the add or after the eviction, and no subscription in force at the check asked for it |
| InterleavedCoverage.NotGivenExactly | srvlog-service/src/main/java/com/payneteasy/srvlog/service/impl/LogBroadcastingServiceImpl.java:152-163 | a log the subscription would find now was not given since its snapshot was sent, exactly when every snapshot since then read the ring before the add, the check precedes the activation, and no earlier subscription brought it after the snapshot |
| InterleavedCoverage.CoverageExactly | srvlog-service/src/main/java/com/payneteasy/srvlog/service/impl/LogBroadcastingServiceImpl.java:128-238 | the interleaved counterpart of coverage: everything the subscription would find now was given since its snapshot, if and only if no log is in that order of moments |
| InterleavedCoverage.UndisturbedIsCovered | srvlog-service/src/main/java/com/payneteasy/srvlog/service/impl/LogBroadcastingServiceImpl.java:152-163 | coverage holds when no log asked for is added between ring read and activation |
| UninterruptedHandlers.RingIsNewest | srvlog-service/src/main/java/com/payneteasy/srvlog/service/impl/InMemoryLogStorage.java:36-52 | a ring read of the interleaved model finds exactly the newest capacity logs of the pair |
| UninterruptedHandlers.FailedRequest | srvlog-service/src/main/java/com/payneteasy/srvlog/service/impl/LogBroadcastingServiceImpl.java:152-181 | a request whose snapshot cannot be sent leaves nothing behind |
| UninterruptedHandlers.MirrorsEvent | srvlog-service/src/main/java/com/payneteasy/srvlog/service/impl/LogBroadcastingServiceImpl.java:128-238 | every event of the atomic protocol is a sequence of interleaved steps with the same live sends and a snapshot of the same logs |
| UninterruptedHandlers.AtomicIsInterleaved | srvlog-service/src/main/java/com/payneteasy/srvlog/service/impl/LogBroadcastingServiceImpl.java:128-238 | every run of the atomic protocol, sessions being opened once and asking after that, is a run of the interleaved model with the same history, registrations, subscriptions and number of responses |
| BroadcastRuns.LossHappens | srvlog-service/src/main/java/com/payneteasy/srvlog/service/impl/LogBroadcastingServiceImpl.java:152-163 | coverage is false of the interleaved code: a run after which a subscribed session has never been given a log that is in its ring |
| BroadcastRuns.DuplicateHappens | srvlog-service/src/main/java/com/payneteasy/srvlog/service/impl/LogBroadcastingServiceImpl.java:152-238 | a run after which a session has got one log in its snapshot and live |
| BroadcastRuns.DuplicateOfEarlierSubscription | srvlog-service/src/main/java/com/payneteasy/srvlog/service/impl/LogBroadcastingServiceImpl.java:134-163 | a run of a session that asks again: the log comes in the new snapshot and live, although its check precedes the new activation |
| BroadcastRuns.LateSessionMayBeServed | srvlog-service/src/main/java/com/payneteasy/srvlog/service/impl/LogBroadcastingServiceImpl.java:221-236 | a session registered after the start of a pass may still be shown to it and get the log live |
| BroadcastRuns.RemovedMayBeSkipped | srvlog-service/src/main/java/com/payneteasy/srvlog/service/impl/LogBroadcastingServiceImpl.java:221-236 | a session removed during a pass may be skipped by it |
| BroadcastRuns.RescueByEarlierSubscription | srvlog-service/src/main/java/com/payneteasy/srvlog/service/impl/LogBroadcastingServiceImpl.java:134-163 | a run of a session that asks again: read and checked too early for the new subscription, the log still comes after its snapshot, for the old one |
| LogCollector.SimpleLogCollector.SaveLog | srvlog-service/src/main/java/com/payneteasy/srvlog/service/impl/SimpleLogCollector.java:47-64 | field by field: a date is kept or filled in, the message is what may be stored of it (65535 bytes), nothing else changes; a log without host is refused after its date was set; the service takes the step for that record, then the database gets it or fails |
| LogCollector.PreparedExactly | srvlog-service/src/main/java/com/payneteasy/srvlog/service/impl/SimpleLogCollector.java:48-55 | what a stored record has of the given one, field by field; a message of at most 65535 bytes is unchanged and a longer well-formed one becomes its longest fitting prefix |
| LogCollector.MessageSurvives | srvlog-service/src/main/java/com/payneteasy/srvlog/service/impl/SimpleLogCollector.java:55 | a non-empty message is never truncated to nothing |
| LogCollector.StoredLogsAreComplete | srvlog-service/src/main/java/com/payneteasy/srvlog/service/impl/SimpleLogCollector.java:47-64 | after every run every log held in any ring has date, host and program and a message that is null or at most 65535 UTF-8 bytes, so every query can be sorted |
| Utf8.UnitsTable | srvlog-service/src/main/java/com/payneteasy/srvlog/util/TruncationUtil.java:25 | the units of a character by the formula of RFC 2781 |
| Utf8.EncodeTable | srvlog-service/src/main/java/com/payneteasy/srvlog/util/TruncationUtil.java:25 | the bytes of a character by the table of RFC 3629: number, ranges and bits |
| Utf8.ScalarsOfText | srvlog-service/src/main/java/com/payneteasy/srvlog/util/TruncationUtil.java:25 | UTF-16 code units and characters: a list of characters is recovered from its text |
| Utf8.TextOfScalars | srvlog-service/src/main/java/com/payneteasy/srvlog/util/TruncationUtil.java:25 | a text is recovered from its characters exactly when it is well-formed UTF-16 |
| Utf8.WellFormedIffNoneLone | srvlog-service/src/main/java/com/payneteasy/srvlog/util/TruncationUtil.java:25 | well-formed text is text without lone surrogates |
| Utf8.DecodeEncoded | srvlog-service/src/main/java/com/payneteasy/srvlog/util/TruncationUtil.java:25-37 | UTF-8 decoding inverts encoding, whatever bytes follow |
| Utf8.CutDecodesToNothing | srvlog-service/src/main/java/com/payneteasy/srvlog/util/TruncationUtil.java:33-37 | a character that is cut short decodes to nothing when malformed input is ignored |
| Utf8.DecodeAllEncoded | srvlog-service/src/main/java/com/payneteasy/srvlog/util/TruncationUtil.java:25-37 | decoding all bytes of a text gives back its characters |
| Truncation.CutBytes | srvlog-service/src/main/java/com/payneteasy/srvlog/util/TruncationUtil.java:30 | the first maxBytes bytes are the characters that fit and a proper beginning of the next one |
| Truncation.DecodeCutBytes | srvlog-service/src/main/java/com/payneteasy/srvlog/util/TruncationUtil.java:30-38 | decoding them gives exactly the characters that fit: the ignored tail is the cut character |
| Truncation.TruncateToBytes | srvlog-service/src/main/java/com/payneteasy/srvlog/util/TruncationUtil.java:15-41 | the method with its length/4 shortcut, byte array and buffers computes TruncateString, for every input and every budget, negative ones included |
| Truncation.DecodeInto | srvlog-service/src/main/java/com/payneteasy/srvlog/util/TruncationUtil.java:31-40 | the decoder never overflows an output buffer as large as its input |
| Truncation.OutcomeExactly | srvlog-service/src/main/java/com/payneteasy/srvlog/util/TruncationUtil.java:17-28 | null for a null or empty string, an exception for a negative budget and any other string, and a string that fits unchanged |
| Truncation.BytesPerUnit | srvlog-service/src/main/java/com/payneteasy/srvlog/util/TruncationUtil.java:21-23 | at most three bytes per code unit, which makes the shortcut sound |
| Truncation.TruncatedFits | srvlog-service/src/main/java/com/payneteasy/srvlog/util/TruncationUtil.java:15-41 | for every string, lone surrogates included, the result encodes to at most the budget |
| Truncation.TruncatedIsLongestFit | srvlog-service/src/main/java/com/payneteasy/srvlog/util/TruncationUtil.java:15-41 | for well-formed text the result is the longest prefix ending on a character boundary that fits |
| Truncation.TruncatedTwice | srvlog-service/src/main/java/com/payneteasy/srvlog/util/TruncationUtil.java:15-41 | truncating at n and then at m is truncating at min(m, n), for every string; hence idempotent |
| Truncation.TruncateStringComposes | srvlog-service/src/main/java/com/payneteasy/srvlog/util/TruncationUtil.java:17-19 | the method composes exactly when the first truncation kept something, because an empty string comes back as null |
| Truncation.TruncatedMonotone | srvlog-service/src/main/java/com/payneteasy/srvlog/util/TruncationUtil.java:15-41 | a smaller budget keeps a prefix of what a larger one keeps, for well-formed text and for any text that both cut |
| Truncation.CutIsPrefixIffWellFormed | srvlog-service/src/main/java/com/payneteasy/srvlog/util/TruncationUtil.java:25-40 | for any string that must be cut the result is a prefix exactly when every prefix of whole characters that fits the budget is well-formed |
| Truncation.LoneSurrogateBreaksPrefix | srvlog-service/src/main/java/com/payneteasy/srvlog/util/TruncationUtil.java:25-40 | a concrete input whose result is no prefix of it |
| UdpHandoff.DropsOnlyWhenFull | srvlog-service/src/main/java/com/payneteasy/srvlog/adapter/udp/UDPServer.java:105-107 | a datagram is dropped exactly when the queue is full at the offer, and the queue never exceeds its capacity |
| UdpHandoff.NothingIsLost | srvlog-service/src/main/java/com/payneteasy/srvlog/adapter/udp/UDPServer.java:70-113 | over every interleaving processed ++ in flight ++ queued are, in order, the received datagrams that were not dropped, and the counts add up |
| UdpHandoff.CountersCount | srvlog-service/src/main/java/com/payneteasy/srvlog/adapter/udp/UDPServer.java:71-83 | what counts as enqueued or taken after the stop is every growth and every shrinking of the queue after it |
| UdpHandoff.LoopsExactly | srvlog-service/src/main/java/com/payneteasy/srvlog/adapter/udp/UDPServer.java:57-113 | in every run: started exactly after a start was called, even one that could not bind; stopped exactly after a stop or a failing receive; threads begun exactly after a successful start; no thread out of its loop unless the server is stopped |
| UdpHandoff.StopsSoon | srvlog-service/src/main/java/com/payneteasy/srvlog/adapter/udp/UDPServer.java:71-83 | in every run at most one more datagram is enqueued and at most one more is taken after the stop |
| UdpHandoff.ReceivedArrived | srvlog-service/src/main/java/com/payneteasy/srvlog/adapter/udp/UDPServer.java:97-107 | what a run has received is exactly what arrived in it, in order |
| UdpServer.Serve | srvlog-service/src/main/java/com/payneteasy/srvlog/adapter/udp/UDPServer.java:70-113 | for every sequence of actions of the two threads and arrivals on a fresh server: the state is that of the run, and the processor was handed, in order, exactly the bytes of datagrams that arrived and were not dropped, however often the buffer was overwritten |
| UdpServer.HandOver | srvlog-service/src/main/java/com/payneteasy/srvlog/adapter/udp/UDPServer.java:70-113 | progress: a started server that goes through its loops hands over every datagram that arrives, in order, with all the bytes the buffer has room for |
| UdpServer.UDPServer.Perform | srvlog-service/src/main/java/com/payneteasy/srvlog/adapter/udp/UDPServer.java:70-113 | each action takes its step when it can be done, and changes nothing otherwise |
| UdpServer.Datagram.constructor | srvlog-service/src/main/java/com/payneteasy/srvlog/adapter/udp/Datagram.java:12-16 | a datagram has a fresh copy of the given part of the buffer |
| UdpServer.UDPServer.constructor | srvlog-service/src/main/java/com/payneteasy/srvlog/adapter/udp/UDPServer.java:51-56 | nothing started, nothing queued |
| UdpServer.UDPServer.StartServer | srvlog-service/src/main/java/com/payneteasy/srvlog/adapter/udp/UDPServer.java:58-68 | the second start is refused; the first starts both threads, or leaves a started server without threads when the channel cannot be bound |
| UdpServer.UDPServer.StopServer | srvlog-service/src/main/java/com/payneteasy/srvlog/adapter/udp/UDPServer.java:135-159 | stopping is the stop step and stopping twice changes nothing; without a channel it ends in an exception |
| UdpServer.UDPServer.FillBuffer | srvlog-service/src/main/java/com/payneteasy/srvlog/adapter/udp/UDPServer.java:99-100 | the shared buffer holds the received bytes from its start on |
| UdpServer.UDPServer.ReceiveInto | srvlog-service/src/main/java/com/payneteasy/srvlog/adapter/udp/UDPServer.java:99-104 | the datagram carries exactly the received bytes, in an array of its own |
| UdpServer.UDPServer.ReceiveDatagram | srvlog-service/src/main/java/com/payneteasy/srvlog/adapter/udp/UDPServer.java:97-104 | overwriting the shared buffer takes the receive step: no datagram in a queue or in a thread changes |
| UdpServer.UDPServer.ReceiveNull | srvlog-service/src/main/java/com/payneteasy/srvlog/adapter/udp/UDPServer.java:108-110 | a null address takes the loop back to its test |
| UdpServer.UDPServer.ReceiveThrows | srvlog-service/src/main/java/com/payneteasy/srvlog/adapter/udp/UDPServer.java:86-95 | an IOException ends the loop and stops the server |
| UdpServer.UDPServer.OfferDatagram | srvlog-service/src/main/java/com/payneteasy/srvlog/adapter/udp/UDPServer.java:105-107 | enqueues at the end exactly when there is room |
| UdpServer.UDPServer.TestInAcceptor | srvlog-service/src/main/java/com/payneteasy/srvlog/adapter/udp/UDPServer.java:98 | the acceptor leaves its loop when it finds the server stopped |
| UdpServer.UDPServer.TestInProcessor | srvlog-service/src/main/java/com/payneteasy/srvlog/adapter/udp/UDPServer.java:71 | the processor leaves its loop when it finds the server stopped |
| UdpServer.UDPServer.TakeDatagram | srvlog-service/src/main/java/com/payneteasy/srvlog/adapter/udp/UDPServer.java:74 | takes the oldest datagram |
| UdpServer.UDPServer.FinishDatagram | srvlog-service/src/main/java/com/payneteasy/srvlog/adapter/udp/UDPServer.java:75-79 | the processor is handed the bytes of the datagram it holds, and the datagram counts as processed |
| Paging.PagesCoverAllRows | srvlog-web/src/main/java/com/payneteasy/srvlog/wicket/component/navigation/UncountablyPageableListView.java:38-45 | following next from the first page ends and shows every row once and in order |
| Paging.ClicksStayOnPage | srvlog-web/src/main/java/com/payneteasy/srvlog/wicket/component/navigation/UncountablyPageableNavigator.java:26-61 | no sequence of clicks on next, previous and first leaves the pages of the list |
| Paging.LoadExactly | srvlog-web/src/main/java/com/payneteasy/srvlog/wicket/component/navigation/UncountablyPageableListView.java:40 | the provider gives the rows from the offset on, up to the limit |
| Paging.PageRowsExactly | srvlog-web/src/main/java/com/payneteasy/srvlog/wicket/component/navigation/UncountablyPageableListView.java:38-45 | row k of a page is row page * perPage + k of the list, up to perPage of them |
| Paging.FetchTellsNext | srvlog-web/src/main/java/com/payneteasy/srvlog/wicket/component/navigation/UncountablyPageableListView.java:39-42 | fetching one row too many tells exactly whether there is a next page, and the rows shown are those of the page |
| Paging.NoWrapAround | srvlog-web/src/main/java/com/payneteasy/srvlog/wicket/component/navigation/UncountablyPageableListView.java:39-42 | no int computation overflows for fewer than 2^31 rows and a page size below 2^31-1 |
| Paging.LargestPageSizeShowsNothing | srvlog-web/src/main/java/com/payneteasy/srvlog/wicket/component/navigation/UncountablyPageableListView.java:40 | the bound is sharp: with the largest int as page size nothing is ever shown |
| Paging.ModelIterator.NextItem | srvlog-web/src/main/java/com/payneteasy/srvlog/wicket/component/navigation/UncountablyPageableListView.java:111-114 | yields the items one after the other |
| Paging.UncountablyPageableListView.GetItemModels | srvlog-web/src/main/java/com/payneteasy/srvlog/wicket/component/navigation/UncountablyPageableListView.java:38-45 | the fetch leaves the view knowing what it fetched and whether there is a next page |
| Paging.UncountablyPageableListView.Render | srvlog-web/src/main/java/com/payneteasy/srvlog/wicket/component/navigation/UncountablyPageableListView.java:93-115 | draining the iterator shows exactly the rows of the current page |
| Paging.UncountablyPageableListView.RowNumbersAreRight | srvlog-web/src/main/java/com/payneteasy/srvlog/wicket/component/navigation/UncountablyPageableListView.java:73-81 | rows fromRow to toRow are exactly the rows displayed; rows 1 to 0 without rows |
| Paging.UncountablyPageableListView.EmptyIffNoRows | srvlog-web/src/main/java/com/payneteasy/srvlog/wicket/component/navigation/UncountablyPageableListView.java:89-91 | after a fetch the view is empty exactly when there are no rows |
| Paging.UncountablyPageableListView.EmptyIffNothingFetched | srvlog-web/src/main/java/com/payneteasy/srvlog/wicket/component/navigation/UncountablyPageableListView.java:89-91 | before the first fetch the first page counts as empty whatever the rows |
| Paging.UncountablyPageableNavigator.VisibleIffRows | srvlog-web/src/main/java/com/payneteasy/srvlog/wicket/component/navigation/UncountablyPageableNavigator.java:18-21 | after a fetch the navigator is visible exactly when there are rows |
| Paging.UncountablyPageableNavigator.ShowAll | srvlog-web/src/main/java/com/payneteasy/srvlog/wicket/component/navigation/UncountablyPageableNavigator.java:26-36 | on the objects: rendering and clicking next while the link is enabled ends and shows exactly all rows |
| Paging.ClickLeadsThere | srvlog-web/src/main/java/com/payneteasy/srvlog/wicket/component/navigation/UncountablyPageableNavigator.java:26-61 | the page computed by an enabled link is the one it should lead to, without overflow |
| Paging.UncountablyPageableNavigator.EnabledExactly | srvlog-web/src/main/java/com/payneteasy/srvlog/wicket/component/navigation/UncountablyPageableNavigator.java:26-61 | next is enabled exactly when rows lie beyond the page, previous and first exactly when the page is not the first |
| Paging.UncountablyPageableNavigator.OnClick | srvlog-web/src/main/java/com/payneteasy/srvlog/wicket/component/navigation/UncountablyPageableNavigator.java:26-61 | an enabled link moves to the next, previous or first page, and nothing else changes |
| Paging.UncountablyPageableNavigator.ClickAndRender | srvlog-web/src/main/java/com/payneteasy/srvlog/wicket/component/navigation/UncountablyPageableNavigator.java:26-61 | after any click, on an enabled or disabled link, the rows shown are those of the page reached |
| HexPayload.DecodePayload | srvlog-service/src/main/java/com/payneteasy/srvlog/adapter/syslog/SnortMessage.java:151-163 | an odd length is an error, otherwise one unit per pair of digits; Decode is tied to the viewer by the round trips |
| HexPayload.HexTable | srvlog-web/src/main/java/com/payneteasy/srvlog/wicket/component/HexViewerPanel.java:29 | the digits are the characters of "0123456789ABCDEF" by position |
| HexPayload.EncodeOfDecode | srvlog-service/src/main/java/com/payneteasy/srvlog/adapter/syslog/SnortMessage.java:158-160 | no even-length hex string loses a digit in decoding |
| HexPayload.FormatLineInHex | srvlog-web/src/main/java/com/payneteasy/srvlog/wicket/component/HexViewerPanel.java:92-109 | the loop computes the hex column, with two spaces before every eighth unit |
| HexPayload.GetLines | srvlog-web/src/main/java/com/payneteasy/srvlog/wicket/component/HexViewerPanel.java:55-72 | the loop cuts the data into lines with offsets 0, 32, 64, ... |
| HexPayload.LinesAreSlices | srvlog-web/src/main/java/com/payneteasy/srvlog/wicket/component/HexViewerPanel.java:58-68 | line k exists exactly when the data reaches beyond unit 32k, has that offset and shows the units from there |
| HexPayload.UnitIsShownAt | srvlog-web/src/main/java/com/payneteasy/srvlog/wicket/component/HexViewerPanel.java:97-106 | unit i of a line is shown at position 3*i + 2*(i/8) of the hex column |
| HexPayload.HexRoundTrip | srvlog-web/src/main/java/com/payneteasy/srvlog/wicket/component/HexViewerPanel.java:55-109 | for every even-length upper-case hex string: decoded, shown in lines, columns joined and spaces removed, it is the same string |
| HexPayload.TextRoundTrip | srvlog-web/src/main/java/com/payneteasy/srvlog/wicket/component/HexViewerPanel.java:103-104 | what the viewer shows decodes to the text exactly when all its units are below 256; only the low byte is shown |
| SnortSignatures.ValueOfDecimal | srvlog-service/src/main/java/com/payneteasy/srvlog/adapter/syslog/SnortSignature.java:136 | parsing a printed decimal number gives the number |
| SnortSignatures.ValueIsPositional | srvlog-service/src/main/java/com/payneteasy/srvlog/adapter/syslog/SnortSignature.java:42-44 | digits count by position, the first one most |
| SnortSignatures.PrintsUsually | srvlog-service/src/main/java/com/payneteasy/srvlog/adapter/syslog/SnortSignature.java:136 | no leading zeros, and a minus in front of a negative number |
| SnortSignatures.MatchesExactly | srvlog-service/src/main/java/com/payneteasy/srvlog/adapter/syslog/SnortSignature.java:19-20 | the matcher succeeds at a position exactly when the text there reads [digits:digits:digits], and gives those digits |
| SnortSignatures.FindIsLeftmost | srvlog-service/src/main/java/com/payneteasy/srvlog/adapter/syslog/SnortSignature.java:38 | the match found is the leftmost one |
| SnortSignatures.FirstMatchWins | srvlog-service/src/main/java/com/payneteasy/srvlog/adapter/syslog/SnortSignature.java:38 | a match is found whatever follows it |
| SnortSignatures.ParseExactly | srvlog-service/src/main/java/com/payneteasy/srvlog/adapter/syslog/SnortSignature.java:38-46 | no match is an error, a number above 2147483647 is another, and otherwise the three numbers are taken in their order |
| SnortSignatures.UsualSignature | srvlog-service/src/main/java/com/payneteasy/srvlog/adapter/syslog/SnortSignature.java:34-47 | "[1:2:3]" is generator 1, signature 2, revision 3 |
| SnortSignatures.PrintedIsParsed | srvlog-service/src/main/java/com/payneteasy/srvlog/adapter/syslog/SnortSignature.java:34-47 | for all numbers from 0 to 2^31-1, a printed signature in any text is read back, unless a match precedes it, which is then read |
| SnortSignatures.ReadBackIffNonNegative | srvlog-service/src/main/java/com/payneteasy/srvlog/adapter/syslog/SnortSignature.java:134-137 | over all ints a printed signature is read back exactly when no number is negative |
| SnortSignatures.ParsedIsPrinted | srvlog-service/src/main/java/com/payneteasy/srvlog/service/impl/SimpleLogCollector.java:158-160 | what is read from any identifier prints as a text that is read alike |
| SnortSignatures.SnortSignature.PrintsAsItself | srvlog-service/src/main/java/com/payneteasy/srvlog/adapter/syslog/SnortSignature.java:134-137 | what a signature object prints parses to its numbers exactly when none is negative |
| SnortSignatures.SnortSignature.CreateSnortSignature | srvlog-service/src/main/java/com/payneteasy/srvlog/adapter/syslog/SnortSignature.java:34-47 | a new object with the numbers of the first match, or the exception: no match, or a number beyond an int |
| SyslogTag.TerminatorIsFirst | srvlog-service/src/main/java/com/payneteasy/srvlog/adapter/syslog/SyslogAdapter.java:136-148 | the tag ends at the first bracket or colon; a lone colon needs at least two units before it when there is no bracket |
| SyslogTag.ProgramIffNamed | srvlog-service/src/main/java/com/payneteasy/srvlog/adapter/syslog/SyslogAdapter.java:173-185 | a program is set exactly when at most 32 units before the terminator have the form of host and tag, and then it is their last word |
| SyslogTag.SuffixIsStored | srvlog-service/src/main/java/com/payneteasy/srvlog/adapter/syslog/SyslogAdapter.java:130-151 | the stored message is a suffix of the original; with a program set, at most 32 units without bracket or colon are removed |
| SyslogTag.FirstWordIsDropped | srvlog-service/src/main/java/com/payneteasy/srvlog/adapter/syslog/SyslogAdapter.java:147 | without a terminator exactly the text after the first space is stored, or all of it when there is none |
| SyslogTag.FailsIffOnlySpaces | srvlog-service/src/main/java/com/payneteasy/srvlog/adapter/syslog/SyslogAdapter.java:175-182 | an exception is thrown exactly when 1 to 32 spaces and nothing else precede the terminator |
| SyslogTag.HostAndTagAreSplit | srvlog-service/src/main/java/com/payneteasy/srvlog/adapter/syslog/SyslogAdapter.java:173-185 | "host tag" of at most 32 units followed by a bracket or colon gives the tag as program and the rest as message (section 4.1.3 of RFC 3164) |
| SyslogTag.UsualLine | srvlog-service/src/main/java/com/payneteasy/srvlog/adapter/syslog/SyslogAdapter.java:130-151 | a usual line, split into program and message |
| SyslogTag.ParseProgramField | srvlog-service/src/main/java/com/payneteasy/srvlog/adapter/syslog/SyslogAdapter.java:173-185 | sets the program of the record and returns the rest, or leaves both alone, or fails |
| SyslogTag.FillFromEvent | srvlog-service/src/main/java/com/payneteasy/srvlog/adapter/syslog/SyslogAdapter.java:130-151 | the record gets the host, the program and the message of the split; on an exception no message |
| JavaText.LessExactly | srvlog-service/src/main/java/com/payneteasy/srvlog/service/impl/LogBroadcastingServiceImpl.java:58-59 | the order of names is decided by the first differing unit, or by length for a proper prefix |
| JavaText.TrimExactly | srvlog-web/src/main/java/com/payneteasy/srvlog/wicket/page/AddHostsPage.java:88 | trimming takes blanks off both ends and nothing else |
| JavaText.SplitOfJoin | srvlog-web/src/main/java/com/payneteasy/srvlog/wicket/page/AddHostsPage.java:89 | Java split undoes a join of separator-free pieces whose last piece is not empty |
| HostList.PrefillHosts | srvlog-web/src/main/java/com/payneteasy/srvlog/wicket/page/AddHostsPage.java:35-46 | the loop shows each name, with a semicolon unless it equals the last name of the list; nothing for an empty list |
| JavaText.SplitConserves | srvlog-web/src/main/java/com/payneteasy/srvlog/wicket/page/AddHostsPage.java:89 | Java split loses nothing of a text but separators at its end |
| HostList.HostStore.SaveHosts | srvlog-service/src/main/java/com/payneteasy/srvlog/service/impl/SimpleLogCollector.java:81-85 | host after host in the transaction of the collector: all are saved, or none |
| HostList.AddHostsPage.SubmitHosts | srvlog-web/src/main/java/com/payneteasy/srvlog/wicket/page/AddHostsPage.java:87-114 | saves all hosts after all entries have been parsed, or nothing; an exception for an entry without fields or a host the database refuses |
| HostList.EntriesAreTheText | srvlog-web/src/main/java/com/payneteasy/srvlog/wicket/page/AddHostsPage.java:88-89 | besides outer blanks only semicolons at the end of the text are ignored |
| HostList.SavedIffWellFormed | srvlog-web/src/main/java/com/payneteasy/srvlog/wicket/page/AddHostsPage.java:87-114 | a text is saved exactly when it has entries and each has one or two fields; more fields in any entry mean that nothing is saved |
| HostList.HostsAreFields | srvlog-web/src/main/java/com/payneteasy/srvlog/wicket/page/AddHostsPage.java:100-110 | the first field of an entry is the host name and the second, if any, the address |
| HostList.WrittenIsSaved | srvlog-web/src/main/java/com/payneteasy/srvlog/wicket/page/AddHostsPage.java:87-114 | general round trip: hosts written as "name" or "name,address" and joined by semicolons are saved exactly so, in order |
| HostList.FirstBadEntryDecides | srvlog-web/src/main/java/com/payneteasy/srvlog/wicket/page/AddHostsPage.java:94-98 | the first bad entry decides between a plain refusal (too many fields) and an exception (no field) |
| HostList.PrefilledIsSaved | srvlog-web/src/main/java/com/payneteasy/srvlog/wicket/page/AddHostsPage.java:35-46 | submitting the prefilled text saves exactly those hosts in order with empty addresses if and only if the last name occurs once |
| HostList.RepeatedHostIsMerged | srvlog-web/src/main/java/com/payneteasy/srvlog/wicket/page/AddHostsPage.java:41-43 | a concrete list with a repeated last host that is saved as two hosts, the first two names run together |

## Left out

- The database, Sphinx indexing, stored procedures, Spring wiring, authorization, JSON reading and writing, logging and Wicket rendering: libraries or plumbing.
- Snort, Suricata and OSSEC correlation after a syslog message was split, and the branch for structured syslog messages: field copies and regular expressions of other formats.
- The calendar arithmetic of `DateRange`, and header, level and facility tables: only easy members, or an assumed calendar.
- The parallel `forEach` into an `ArrayList` in the query is modelled sequentially, in any order of hosts and programs; the data race on the list is not modelled.
- In the interleaved model refused, ignored and failing requests take no steps, a session object is opened once, and a client has one request at a time in progress; checking and sending are two steps, and removal after a failed send is part of the send.
- The `AtomicReference` around a subscription is folded into the session map; the gap between `get` and `set` at the activation cannot be seen by a client.
- LogBroadcasting.LogBroadcastingService.constructor: the code accepts a capacity below 1, with which every received log ends in an exception and is never stored or shown; the model asks for at least 1, as the configured capacity always is.
- LogStorage.InMemoryLogStorage.constructor: a negative number of slots, for which the array cannot be created, is not modelled.
- Null elements in requested host and program lists, and changes to a log record after it was handed to the store: the store keeps values here and references in the code.
- The exception handler around the broadcast in `saveLog` (a failing JSON conversion), and errors that are not exceptions.
- LogCollector.SimpleLogCollector.SaveLog: what a transaction that spans the caller would undo in the database is not modelled.
- SessionProtocol.QuietTrace: is stated for events among which no request could be answered; SessionTraces.WholeTrace covers every run.
- InterleavedCoverage.CoverageExactly: is about logs whose broadcast pass is over; the others may still be sent.
- UDP: interrupts, the executors' shutdown (left undone by a stop without a channel), and visibility of the volatile flags beyond steps happening one at a time.
- UdpServer.UDPServer.FillBuffer: what the channel leaves in the rest of the buffer is not stated; nothing reads it.
- Paging: changing the number of rows per page while on a later page, and rows that change between fetches.
- HexPayload.DecodePayload: is called with digits 0-9 and A-F only, which its one caller searches for; what the int parser does with other characters is not modelled.
- HexPayload.GetLines: gives offsets as numbers; their formatting and the ASCII column are left out, and so is the overflow of line offsets for strings within 32 of 2^31 characters.
- SnortSignatures.SnortSignature.CreateSnortSignature: digits are 0 to 9, as in the pattern library's default.
- SyslogTag.FillFromEvent: date, facility and severity are plain copies and are left out; a null message is not modelled.
- HostList.HostStore.SaveHosts: which hosts the database refuses is a parameter.
