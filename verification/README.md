# Sawtooth Go SDK in Dafny

This project models the parts of the Sawtooth Go SDK in which several things
happen at once or a format has to be got exactly right, and proves what holds of
them: the transaction processor (router, work queue, worker pool, shutdown), the
consensus engine library (event loop and service calls), the devmode engine with
its fork choice, the connection's selective receive, the handler's state calls,
and three small codecs.

A protocol is modelled as a state machine. `Next(s, step)` is one action of one
thread, a step that is not possible leaves the state as it is, and `Run` applies
any sequence of steps; so a lemma about `Run(..., steps)` for arbitrary `steps`
is a statement about every interleaving. The functions as the program writes
them, with their mutable maps, queues and loops, are classes and methods proved
equal to the step functions.

| file | contents |
|---|---|
| `Common.dfy` | optional values, bytes, counting over a sequence |
| `Dispatch.dfy` | handler registration and `findHandler` |
| `Processor.dfy` | state and steps of router, workers and shutdown |
| `ProcessorRouting.dfy` | routing safety over all runs |
| `ProcessorAccounting.dfy` | conservation of requests, order, shutdown accounting |
| `ProcessorResponses.dfy` | lost and denied requests, how answers reach the validator, what they report |
| `ProcessorProgress.dfy` | round trip of context calls, answering of queued requests |
| `ProcessorShutdown.dfy` | shutdown ends on every schedule |
| `ProcessorThreads.dfy` | router methods, worker loop, shutdown loop |
| `Connection.dfy` | `RecvMsg` and `RecvMsgWithId` with the `incoming` map |
| `SelectiveReceive.dfy` | the receive loops of worker and service are `RecvMsgWithId` |
| `StateContext.dfy` | `GetState`, `SetState`, `DeleteState` |
| `ConsensusEngine.dfy` | state, steps and theorems of engine loop and service |
| `ConsensusThreads.dfy` | engine methods and `serviceRpc` |
| `Devmode.dfy` | devmode engine against the block-building contract |
| `ForkChoice.dfy` | `HandleBlockValid` over a block store |
| `BlockIds.dfy` | block ids, hex text, `GetBlocks` |
| `Compact.dfy` | compact signatures |
| `StringCopy.dfy` | `strncpy_s` |

Main results:

- Processor: over every run a context response reaches only the worker that
  asked, at most once, and never has to be stashed; a context call makes the round
  trip on every schedule; every process request received is in exactly one place;
  no request is answered twice, and one is denied exactly if it finds no room;
  while the router serves, a request is lost only if it is undecodable,
  unregistered or its response does not marshal, and an answer reaches the
  validator on every schedule that reads it; shutdown returns only when every
  worker has ended, and every schedule of it is bounded and can only stop in a
  state where it has returned.
- Consensus engine: over every run the implementation receives exactly the
  translations of the decodable notifications in arrival order, each acknowledged
  exactly once and directly after its update, with the shutdown update last; the
  loop ends the process exactly on two kinds of notification; a service call is
  only ever completed by a message with its own id that arrived after the id was
  recorded, and is completed by it on every schedule with enough turns.
- Devmode, with every service call answered, not served, or served with its reply
  lost: the engine is in step with the block under construction exactly if the
  validator served the first publication since the last commit; it finalizes at
  most one block between two commit notifications; when all published blocks pass
  the peers' check, when all of them are announced, and when the loop stops is
  stated exactly.
- Fork choice: for any blocks in any order, it is stated exactly when the final
  head is the maximum by (height, id), when it does not depend on the order, and
  when the head can come back to a block it has left; blocks of non-decreasing
  height always give the maximum.
- Connection: on any stream every message is in exactly one of four places: unread,
  set aside, handed out or overwritten by a later one with its id; with distinct
  ids nothing is overwritten and selective receive is lookup in the whole stream.

Assumptions. Correlation ids are version 4 UUIDs (section 4.4 of RFC 4122) and
taken to be fresh and non-empty. While the processor is serving, sends on its
sockets succeed; once it has closed the workers' connection, the workers' sends
and receives fail, as the comment at processor/processor.go:393 says. Handlers,
the validator and the scheduler are arbitrary. Decoding is a property of the
message content. A correlation id map shared between two threads is read and
written atomically.

Where the code and its comments differ, the model follows the code:

- A hit in `incoming` by id does not remove the entry, so a message set aside can
  be returned again (`Connection.RepeatedIffSetAside`); a later message set aside
  under the same id replaces it (`Connection.SetAsideKeptIff`,
  `Connection.EntryOverwrittenIff`).
- `serviceRpc` records its id after sending, so an early response is dropped
  (`ConsensusEngine.ForwardedIffAwaited`, `ConsensusEngine.FastResponseIsLost`).
- The engine library sends the shutdown update as a pointer, which the devmode loop
  does not match, and closes the channel, from which the loop then receives nil for
  ever: devmode does not stop, and publishes again only in a turn held up until the
  timer made in it has run out (`Devmode.StopsIff`, `Devmode.NeverStopsUnderLibrary`,
  `Devmode.AfterLibraryShutdown`).
- If summarizing or finalizing fails for a reason other than "not ready", devmode
  goes on as if it had not. If the call was not served, it takes the block for
  published until the next commit and announces the null id (`Devmode.InStepIff`,
  `Devmode.AnnouncesNullIff`). If only the reply was lost, a block is published that
  every peer fails (`Devmode.LostSummaryIsRejected`,
  `Devmode.RunsPublishAcceptedIff`), or one that is announced under the null id
  (`Devmode.LostFinalizeAnnouncesNull`, `Devmode.AnnouncesPublishedIff`).
- A peer-connected notification without peer info, and a peer message whose
  header does not decode, end the process (consensus/engine.go:496,
  consensus/types.go:264-267), and nothing else does (`ConsensusEngine.CrashedIff`,
  `ConsensusEngine.CrashesIff`).
- A state call that fails after its request was sent may have changed the ledger
  (`StateContext.Context.SetState`).
- A lower block can replace a higher head, so the fork choice can alternate
  between two heads for ever (`ForkChoice.ForkChoiceCanCycle`,
  `ForkChoice.CanCycleIff`).
- `strncpy_s` returns 0 without a terminator when `count` runs out first
  (`StringCopy.TerminatedIffCountSuffices`).

## Model

| member | source | states |
|---|---|---|
| `ProcessorRouting.RunsAreRouted` | processor/processor.go:225-362 | in every state of every run: each `ids` entry names a worker that still awaits that id; a worker has at most one entry; an inbox holds at most the response to the worker's current call; a call in progress is always in flight (request unread, recorded, or response on its way); no id is delivered twice |
| `ProcessorRouting.IdsAndStashesBounded` | processor/processor.go:134-136 | `ids` never has more entries than there are workers, and every worker's `incoming` map stays empty |
| `ProcessorRouting.ResponsesReachTheirWorkerOnce` | processor/processor.go:292-305 | two deliveries with one id are the same delivery, and it went to the worker that generated the id, however the validator repeats or reorders responses |
| `ProcessorRouting.CallReturnsItsResponse` | processor/context.go:76-89 | a context call that returns does so with the one message delivered for its own correlation id |
| `ProcessorRouting.AwaitedResponseIsDelivered` | processor/processor.go:351-361 | after a worker's request has been read, the first response to it goes to that worker and nowhere else, and the call returns |
| `ProcessorProgress.CallMakesRoundTrip` | processor/context.go:64-89 | a call with a fresh id, made in any reachable serving state, is answerable on every schedule once the router has read the worker's messages; the first response then goes to that worker, stays there until its receive, and returns to the handler of the same request |
| `ProcessorProgress.QueuedRequestCanBeAnswered` | processor/worker.go:44-113 | from every reachable serving state with a live worker, some continuation answers any given queued request with any outcome, if it and those before it are dispatchable |
| `ProcessorRouting.DeliveredWasSent` | processor/processor.go:292-304 | every message a worker gets is one the validator sent, unchanged |
| `ProcessorAccounting.NextConserves` | processor/processor.go:253-278 | no step of any thread creates, duplicates or loses a process request; only receiving one adds one |
| `ProcessorAccounting.EachRequestInOnePlace` | processor/worker.go:44-115 | in every state of every run each request received is in exactly one of: responded to (denied or answered), queued, held or lost by one worker, answered on the way to the router |
| `ProcessorAccounting.AnsweredAtMostOnce` | processor/worker.go:104-108 | no request gets two responses, denials included, and a response carries its request's correlation id |
| `ProcessorAccounting.UnansweredBounded` | processor/worker.go:46-60 | requests taken but unanswered never outnumber the workers, because losing one ends its worker |
| `ProcessorAccounting.RunsAreLabelled` | processor/worker.go:33-113 | what is queued or held is the request as received; only process responses answer a request; each of the six ways in which a worker leaves is tied to what happened: without a request only if not connected or the queue is closed, with one only if undecodable, without handler, its response unmarshallable, or the connection closed |
| `ProcessorAccounting.RunsAreInOrder` | processor/processor.go:253-257 | requests are queued and taken in order of arrival |
| `ProcessorResponses.DeniedIffFull` | processor/processor.go:253-278 | in every run a request that finds no room is denied, for good and with no other place; any other is never denied: all that is sent in response to it is a worker's answer |
| `ProcessorAccounting.DeniedOnlyWhenFull` | processor/processor.go:255-276 | on receipt a request is denied iff the queue is full and no worker waits at an unbuffered one, else queued last or handed over |
| `ProcessorAccounting.RegisteredRequestsFindHandlers` | processor/worker.go:45-61 | if every request received is decodable and for a registered pair, no worker ever exits for a bad request or a missing handler |
| `ProcessorAccounting.ShutdownWaitsForAll` | processor/processor.go:449-454 | shutdown has returned only if all workers have ended; the done channel holds at most one signal a worker; the queue never exceeds its bound |
| `ProcessorAccounting.SignalNeverBlocks` | processor/worker.go:115-115 | a worker on any exit path can signal at once |
| `ProcessorAccounting.EndedIsFinal` | processor/worker.go:115-116 | a worker that has signalled stays ended in every continuation, so it signals once |
| `ProcessorAccounting.NothingEnqueuedAfterClose` | processor/processor.go:389-395 | after the close nothing is received, enqueued or sent on: the queue is only drained from the front |
| `ProcessorResponses.LostOnlyFor` | processor/worker.go:44-113 | in every run a lost request was undecodable, for an unregistered pair, given a response that did not marshal, or not sendable because shutdown had closed the connection |
| `ProcessorResponses.OutboxReachesValidator` | processor/processor.go:334-362 | on every schedule, as long as the router serves, what is n-th in a worker's outbox is with the validator unchanged after n+1 reads and in its place before |
| `ProcessorResponses.AnswerReachesValidator` | processor/worker.go:69-111 | an answer given while serving leaves the worker ready and reaches the validator with the request's id: OK if applied, invalid transaction if invalid or not authorized, internal error otherwise |
| `ProcessorResponses.RunsReport` | processor/worker.go:98-111 | in every run all that reaches the validator has its origin in a step: a worker's answer to its request, a handler's own request unchanged, the denial of a request that found no room, or a ping response |
| `ProcessorResponses.StatusIsHandlersOutcome` | processor/worker.go:69-96 | every process response in every run is the denial of a request that found no room, or tells the outcome its handler had for that very request: OK iff applied, invalid iff invalid or not authorized, internal error iff internal or unknown |
| `ProcessorResponses.OutcomeDecidesStatus` | processor/worker.go:69-111 | conversely, whatever the validator is told about a request that a worker answered has the status of the outcome given |
| `ProcessorResponses.PingsAreAnswered` | processor/processor.go:279-289 | in every run there are exactly as many ping responses under an id as pings with it received while serving |
| `ProcessorResponses.RequestIsServed` | processor/worker.go:44-113 | the shortest run: a new processor receives, takes, answers and sends on a dispatchable request, with a buffered or unbuffered queue |
| `ProcessorShutdown.ShutdownIsNeverStuck` | processor/processor.go:389-457 | from every reachable state in which shutdown waits for workers, some continuation lets it return |
| `ProcessorShutdown.ShutdownAlwaysReturns` | processor/processor.go:389-457 | once shutdown has begun, every schedule has boundedly many steps that do something, handlers' own calls apart, and one that cannot go on has returned |
| `ProcessorShutdown.FewTakenAfterClose` | processor/processor.go:389-395 | after the close every worker takes at most one more request: the queue loses at most as many as there were workers not busy |
| `ProcessorThreads.RouterThread.ReceiveValidator` | processor/processor.go:225-310 | field by field: a request is handed over, queued or denied with an internal error, a ping answered under its id, a response delivered and its entry removed iff recorded, anything else and undecodable data ignored; the queue bound is kept |
| `ProcessorThreads.RoutedIsStep` | processor/processor.go:252-278 | that function, with the hand-over, is the step of the whole system |
| `ProcessorThreads.RouterThread.ReceiveWorkers` | processor/processor.go:334-362 | a request from a worker is recorded under its id, a response is not, both are sent on |
| `ProcessorThreads.RouterThread.ReceiveShutdown` | processor/processor.go:365-387 | only the two known commands close the queue, and only "restart" asks to start again |
| `ProcessorThreads.RunWorker` | processor/worker.go:32-116 | the worker answers requests in order, each with the status of its outcome, up to the first it cannot complete, ends with that request and the cause, and signals exactly once on every path |
| `ProcessorThreads.AwaitWorkers` | processor/processor.go:449-456 | against any schedule the counting loop finishes only when every worker has ended, and is otherwise blocked with no signal pending |
| `Dispatch.Find` | processor/worker.go:120-145 | the result is the first handler, in the order added, that serves the pair, and none iff no handler serves it |
| `Dispatch.FindHandler` | processor/worker.go:120-145 | the nested loops compute that handler |
| `Dispatch.Announce` | processor/processor.go:144-160 | the pairs registered are exactly those some handler serves, one registration for each version a handler lists |
| `Dispatch.AnnouncedIffDispatched` | processor/worker.go:120-145 | a pair is registered iff it is dispatched |
| `Connection.ZmqConnection.RecvMsgWithId` | messaging/connection.go:211-234 | a hit returns the entry and changes nothing; a miss reads through the first frame with the id or malformed, returns it, and sets the frames before it aside |
| `Connection.ZmqConnection.RecvMsg` | messaging/connection.go:192-206 | some message set aside is removed and returned; with none, the next frame is read and returned, or an error if malformed |
| `Connection.ReceiveAnyProgress` | messaging/connection.go:192-206 | `RecvMsg` waits iff nothing is set aside or unread, fails iff nothing is set aside and the next frame is malformed, and unless it waits leaves one message less |
| `Connection.ReceiveAnyWasSent` | messaging/connection.go:192-206 | after any calls on any stream what it returns is a message of the stream |
| `Connection.CallsDrain` | messaging/connection.go:192-206 | as many calls as there are messages unread and set aside drain the connection, none of them waiting |
| `Connection.CallsDrainInOrder` | messaging/connection.go:198-205 | with nothing set aside the calls hand out the frames in the order of the stream |
| `Connection.ScanConsumesPrefix` | messaging/connection.go:218-233 | a miss consumes exactly the prefix through the frame it stops at, returns that frame, and sets the frames before it aside under their ids |
| `Connection.RunsConserve` | messaging/connection.go:192-234 | over any calls on any stream, repeated ids and malformed frames included, every message is, as often as it was sent, in exactly one of: unread, set aside under its own id, handed out for good, overwritten |
| `Connection.SetAsideKeptIff` | messaging/connection.go:230-232 | on any stream a frame set aside by a call is still held after it iff the last frame set aside under its id stores the same message |
| `Connection.EntryOverwrittenIff` | messaging/connection.go:230-232 | an entry held before a call is overwritten by it iff a frame with its id is set aside and the last such stores another message |
| `Connection.RunsAreAccounted` | messaging/connection.go:192-234 | if moreover the ids are distinct, as the generated ones are, nothing is ever overwritten: every message read is either handed out for good or set aside under its own id, never both |
| `Connection.ReceiveWithIdIsLookup` | messaging/connection.go:208-234 | after any calls on any stream, asking for an id returns only a message of the stream with that id, fails iff none is held and a malformed frame comes before the next, and waits iff there is neither; with distinct ids, unless it fails, it returns iff the message exists and was not handed out for good |
| `Connection.RepeatedIffSetAside` | messaging/connection.go:213-216 | asking again for an id returns its message again iff it had been set aside |
| `Connection.DuplicateIdLosesMessage` | messaging/connection.go:231-232 | a stream on which an earlier message set aside is overwritten; the exact condition is `SetAsideKeptIff` |
| `SelectiveReceive.WorkerReceiveIsRecvMsgWithId` | messaging/connection.go:211-234 | the turns of a worker waiting for a context response are one `RecvMsgWithId` on its connection: same messages unread and set aside, returning iff that does |
| `SelectiveReceive.ServiceReceiveIsRecvMsgWithId` | messaging/connection.go:211-234 | so are the turns of the consensus service, and the message returned completes the call |
| `StateContext.Context.GetState` | processor/context.go:64-119 | the call fails iff the exchange of messages does, is an authorization error iff an address is not readable, and otherwise holds exactly the requested addresses whose value is non-empty, with that value |
| `StateContext.Context.SetState` | processor/context.go:134-193 | the ledger becomes the old one overwritten by the pairs iff the request was sent and all addresses are writable, whatever becomes of the reply; send, receive, wrong-id, wrong-type and decoding errors are failures |
| `StateContext.Context.DeleteState` | processor/context.go:208-256 | likewise, the addresses are gone from the ledger and nothing else changes |
| `StateContext.ListPairs` | processor/context.go:136-142 | the entries list every pair once, in some order |
| `StateContext.AnyOrderGivesSameLedger` | processor/context.go:136-147 | the effect of a set is the same for every order of ranging over the map |
| `StateContext.GetAfterSet` | processor/context.go:111-116 | a set served in any order and then a get: the get returns the new non-empty values and the old ones elsewhere |
| `StateContext.GetAfterDelete` | processor/context.go:208-213 | a delete served and then a get: the get returns what it would have before, without the deleted addresses |
| `ConsensusEngine.RunsAreFaithful` | consensus/engine.go:372-589 | in every run, what the loop put on the channel and told the validator is, in order, the concatenation of one fixed reaction per message dealt with, then at most the shutdown update and the close; not dealt with is only the notification in hand or the one that ended the process; the channel keeps to its capacity |
| `ConsensusEngine.UpdatesAreTranslations` | consensus/engine.go:474-589 | the updates seen or waiting are the translations of the decodable notifications in arrival order, and the shutdown update last |
| `ConsensusEngine.CrashedIff` | consensus/engine.go:496-496 | in every run the loop has ended the process iff a crashing notification was received, which is then the last message received |
| `ConsensusEngine.CrashesIff` | consensus/types.go:262-267 | the crashing notifications are the connected peer without peer info and the peer message whose header does not decode |
| `ConsensusEngine.PeerWithoutInfoCrashes` | consensus/engine.go:494-498 | the first of them, read in any polling state, ends the process with nothing put or acknowledged |
| `ConsensusEngine.HeaderlessPeerMessageCrashes` | consensus/types.go:262-267 | so does the second |
| `ConsensusEngine.ReceiveUnblocksLoop` | consensus/engine.go:139-139 | the channel holds two updates; a loop blocked on the full channel deals with its notification, or closes the channel, after one receive of the implementation |
| `ConsensusEngine.ShutsDownIff` | consensus/engine.go:613-642 | in every run the loop puts the shutdown update and closes the channel iff it read a known command, and finishes without closing iff it read an unknown one |
| `ConsensusEngine.TranslateInvertsIff` | consensus/engine.go:485-588 | translating the notification of an update, peer message header, signature and content included, gives the update back iff its ids are canonical |
| `ConsensusEngine.TranslationIs` | consensus/engine.go:474-589 | the translation of every kind of message, field by field, with ids of zeroes made null and undecodable notifications skipped |
| `ConsensusEngine.TranslateIsStable` | consensus/engine.go:485-588 | a translation keeps the notification's type and has canonical ids, so translating again changes nothing |
| `ConsensusEngine.NotificationsAreAcknowledged` | consensus/engine.go:403-418 | each notification dealt with is acknowledged under its own id, directly after its update, and nothing else is told between the acts for the messages before and after it |
| `ConsensusEngine.AcksMatchNotifications` | consensus/engine.go:403-418 | in every run there are exactly as many acknowledgements under an id as notifications dealt with under it |
| `ConsensusEngine.PongsMatchPings` | consensus/engine.go:420-432 | in every run there are exactly as many ping responses under an id as pings received with it |
| `ConsensusEngine.NothingAfterClose` | consensus/engine.go:639-642 | after the channel is closed nothing is put on it or told to the validator |
| `ConsensusEngine.RunsKeepRequests` | consensus/engine.go:451-471 | the requests passed on and waiting are those of the calls made, without loss or repetition |
| `ConsensusEngine.RequestsInOrder` | consensus/engine.go:451-471 | those passed on and then those waiting are the requests of the calls, unchanged and in order |
| `ConsensusEngine.RequestReachesValidator` | consensus/engine.go:451-471 | on every schedule the n-th waiting request is in its place until the polling loop has read n times from the service, and with the validator one read later |
| `ConsensusEngine.CallReachesValidator` | consensus/service.go:475-487 | the request of a call reaches the validator under the call's id on every schedule in which the polling loop reads it and those before it |
| `ConsensusEngine.RunsAreMatched` | consensus/service.go:475-515 | in every run only validator messages that are neither notifications nor pings, for ids the service has used, reach it; while the engine runs the outstanding ids are exactly that of the waiting call |
| `ConsensusEngine.CallsGetTheirOwnResponses` | consensus/service.go:489-509 | a completed call got a message with its own id, received after the id was recorded, and succeeded iff that decodes and has the expected type; no message completes two calls |
| `ConsensusEngine.RunsRecordCalls` | consensus/service.go:483-487 | the time of recording and the expected type a call is matched by are those of its own start and recording in the run |
| `ConsensusEngine.AwaitedResponseCompletes` | consensus/service.go:489-509 | on every schedule the first message with the waiting call's id completes it after exactly as many turns as there are messages up to it |
| `ConsensusEngine.ResponseCompletesCall` | consensus/engine.go:435-446 | a response to a waiting call that the engine reads completes the call on every schedule with enough turns, unless one with the same id was ahead of it, which then does |
| `ConsensusEngine.ShutdownEndsCall` | consensus/service.go:489-494 | after the engine has finished, a waiting call can always end with an error that leaves its id outstanding |
| `ConsensusEngine.ForwardedIffAwaited` | consensus/engine.go:435-446 | a response is passed to the service iff the service is waiting for that very id |
| `ConsensusEngine.FastResponseIsLost` | consensus/service.go:483-487 | a response that overtakes the recording of its id leaves the call waiting with nothing to receive |
| `ConsensusThreads.EngineThread.ReceiveValidator` | consensus/engine.go:373-448 | the engine state is that of the step functions, blocked in the send if the channel is full; written out: update and acknowledgement, acknowledgement alone, or ping response under the message's id |
| `ConsensusThreads.EngineThread.ReceiveService` | consensus/engine.go:451-471 | a decodable request is passed on unchanged, as the system's step does, and nothing else is |
| `ConsensusThreads.EngineThread.Shutdown` | consensus/engine.go:613-642 | only the two known commands put the shutdown update and close the channel, and only "restart" asks to start again |
| `ConsensusThreads.ZmqService.ServiceRpc` | consensus/service.go:475-509 | the result is decided by the first frame with the call's id or malformed: success with the decoded body iff id, type and body are right, and wrong id, wrong type and bad body told apart; the id stays outstanding iff no response was received |
| `Devmode.RunsStayInStep` | examples/devmode_consensus/engine.go:274-307 | against a validator that serves the calls, at every loop head a block is under construction iff none was published at this height |
| `Devmode.PanicsIffBlockInProgress` | examples/devmode_consensus/engine.go:85-93 | against such a validator a run panics in initialize iff the first call failed or a block was already under construction at the start, and never in cancel |
| `Devmode.OneBlockBetweenCommits` | examples/devmode_consensus/engine.go:298-304 | at most one block is finalized between commit notifications, and over a run at most one more than there were notifications, whatever the validator answers |
| `Devmode.InStepIff` | examples/devmode_consensus/engine.go:274-307 | over every run, whatever calls fail: the engine, while running, has tried to publish iff the timer expired since the last commit, and is in step iff the validator served the first such publication |
| `Devmode.OutOfStepIffPublishFails` | examples/devmode_consensus/engine.go:100-126 | of timer events, exactly those that try to publish with one of the two calls not served bring the engine out of step |
| `Devmode.CommitRestoresStep` | examples/devmode_consensus/engine.go:392-401 | a commit notification leaves the engine running iff both its calls are answered, and then in step, from any running state |
| `Devmode.FinalizedBlockCarriesSummary` | examples/devmode_consensus/engine.go:112-121 | with all calls answered, the block finalized carries the prefix and the summary the validator gave, and its id is announced |
| `Devmode.PublishedByAttempt` | examples/devmode_consensus/engine.go:96-127 | every block published in a run comes from one attempt of it that the validator served, with the summary given there and, in its payload, the one that reached the engine |
| `Devmode.PublishedBlocksAreAcceptedIff` | examples/devmode_consensus/engine.go:327-342 | a peer fails a published block iff the reply with its non-empty summary was lost; the payload passes with no summary but the one that reached the engine |
| `Devmode.LostSummaryIsRejected` | examples/devmode_consensus/engine.go:100-112 | if the summary is given and its reply lost, the block is published with an empty summary in its payload and every peer fails it |
| `Devmode.LostFinalizeAnnouncesNull` | examples/devmode_consensus/engine.go:113-127 | if the block is finalized and the reply lost, it is published and the null id announced |
| `Devmode.RunsPublishAcceptedIff` | examples/devmode_consensus/engine.go:96-127 | in every run all published blocks pass the check iff those before did and no attempt lost the reply with a non-empty summary and was finalized all the same |
| `Devmode.PayloadFitsOneSummary` | examples/devmode_consensus/engine.go:405-418 | a payload is accepted with the summary it was made for and with no other |
| `Devmode.AnnouncesPublishedIff` | examples/devmode_consensus/engine.go:298-304 | in every run the non-null ids announced are those of the blocks published, in order, iff no block was finalized with the reply lost or its announcement not sent; otherwise they are fewer |
| `Devmode.AnnouncedWasPublished` | examples/devmode_consensus/engine.go:298-304 | in every run an id other than null is announced only if it is that of a block published |
| `Devmode.AnnouncesNullIff` | examples/devmode_consensus/engine.go:112-127 | the null id is announced as published iff some attempt got no block finalized, or one whose reply was lost, or the null id |
| `Devmode.RunsTellWhatIsDue` | examples/devmode_consensus/engine.go:285-342 | in every run, whatever calls fail, all directives and messages sent are, in order, those due on the events handled: a genesis block neither checked nor failed, any other new block checked iff its payload is "Devmode" and its summary, else failed; a "received" message acknowledged; the signer of a valid block told before the decision |
| `Devmode.EndsIff` | examples/devmode_consensus/engine.go:285-401 | the loop has stopped, or panicked in a given place, iff it handled an event that ends it there |
| `Devmode.StopsIff` | examples/devmode_consensus/engine.go:286-288 | the loop stops iff, running and with its channel open, it receives a shutdown sent as a value |
| `Devmode.NeverStopsUnderLibrary` | consensus/engine.go:640-640 | as the library sends pointers only, the loop never stops under it |
| `Devmode.AfterLibraryShutdown` | consensus/engine.go:640-641 | after the pointer and the close the loop does not stop; only turns in which the timer ran out count, without an expired one nothing changes, and at most one more block is published |
| `Devmode.DevmodeEngine.FinalizeBlock` | examples/devmode_consensus/engine.go:96-127 | after any number of "not ready" answers the validator, served or not, and the id returned are as the step function says, and the log guards are reset |
| `Devmode.DevmodeEngine.Tick` | examples/devmode_consensus/engine.go:298-304 | the timer case of the loop, finalize, mark and broadcast, is the timer step |
| `Devmode.DevmodeEngine.HandleBlockCommit` | examples/devmode_consensus/engine.go:392-401 | cancel, reset, initialize, with their panics, is the commit step |
| `Devmode.DevmodeEngine.HandleBlockNew` | examples/devmode_consensus/engine.go:327-342 | a genesis block leads to nothing; any other is checked iff its payload is "Devmode" followed by its summary, and failed otherwise |
| `Devmode.DevmodeEngine.HandlePeerMessage` | examples/devmode_consensus/engine.go:310-324 | a "received" message is acknowledged to its sender, the other two known types change nothing, any other panics |
| `Devmode.DevmodeEngine.HandleBlockValid` | examples/devmode_consensus/engine.go:347-388 | the signer is told first; then, on a well-formed store, the block is committed iff it improves on the head and ignored otherwise |
| `ForkChoice.HandleBlockValid` | examples/devmode_consensus/engine.go:347-388 | on any store on which the walk ends: panic on a missing block or predecessor, else commit iff the block is higher than the head or its id is greater than that of the block of its height first met on the way down; the ids looked up are given; on a well-formed store that block is the head's ancestor-or-self at that height and no null id is looked up |
| `ForkChoice.WellFormedWalkEnds` | examples/devmode_consensus/engine.go:365-372 | on a well-formed store the walk ends after height-difference steps, on the ancestor |
| `ForkChoice.AncestorIsUnique` | examples/devmode_consensus/engine.go:366-372 | a chain has exactly one block at each height |
| `ForkChoice.OwnChainIsIgnored` | examples/devmode_consensus/engine.go:374-387 | a block on the current chain is never committed |
| `ForkChoice.CommitRaises` | examples/devmode_consensus/engine.go:361-379 | a commit raises the head's height or strictly raises the id the chain holds at the committed height |
| `ForkChoice.RisingBlocksPickMaximum` | examples/devmode_consensus/engine.go:356-364 | on blocks of non-decreasing height from the head's on, the final head is the maximum by (height, id) |
| `ForkChoice.RisingOrdersAgree` | examples/devmode_consensus/engine.go:356-364 | two such orders of the same blocks end on the same head |
| `ForkChoice.PicksMaximumIff` | examples/devmode_consensus/engine.go:361-387 | for any blocks in any order the final head is the maximum by (height, id) iff nothing handled after the maximum last was beats its ancestor at that height |
| `ForkChoice.OrdersAgreeOnMaximumIff` | examples/devmode_consensus/engine.go:361-387 | two orders of the same blocks both end on the maximum iff both leave it undisturbed in that sense |
| `ForkChoice.EveryOrderPicksMaximumIff` | examples/devmode_consensus/engine.go:361-387 | every order ends on the maximum iff no block improves on it |
| `ForkChoice.OrderIndependentIff` | examples/devmode_consensus/engine.go:361-387 | for any blocks the final head is the same in every order iff none improves on the head, or the greatest does and none improves on that |
| `ForkChoice.CanCycleIff` | examples/devmode_consensus/engine.go:361-387 | among any blocks the head can leave one and come back to it iff one of them improves on a greater one |
| `ForkChoice.OrderDoesNotMatterIff` | examples/devmode_consensus/engine.go:365-379 | the case of two blocks, in terms of ancestors: if both improve on the head the orders agree iff the higher one's ancestor is not beaten by the lower |
| `ForkChoice.OrderWithOneImprovement` | examples/devmode_consensus/engine.go:361-387 | the remaining case of two blocks: if at most one improves on the head, the orders agree iff the other does not improve on that one either |
| `ForkChoice.ForkChoiceCanCycle` | examples/devmode_consensus/engine.go:365-379 | a store on which the same blocks in two orders give two heads, and the head alternates for as long as they are handled in turn |
| `ForkChoice.LessIsTotal` | examples/devmode_consensus/engine.go:359-359 | the byte order on ids is strict and total |
| `ForkChoice.LessIsFirstDifference` | examples/devmode_consensus/engine.go:359-359 | one id is less than another iff it is smaller at the first difference or a proper prefix |
| `BlockIds.NewBlockIdFromBytes` | consensus/types.go:29-65 | the scan makes every all-zero slice the null id and keeps any other |
| `BlockIds.CanonicalIsFixedPoint` | consensus/types.go:50-65 | going through bytes is idempotent, and the canonical ids are its fixed points |
| `BlockIds.TextRoundTrip` | consensus/types.go:45-70 | hex text gives an id back iff the id is canonical |
| `BlockIds.HexRoundTrip` | consensus/types.go:45-47 | decoding the hex text of any bytes gives the bytes |
| `BlockIds.HexDigits` | consensus/types.go:45-47 | the text of an id has two lower-case digits a byte, the high one first |
| `BlockIds.HexDecodes` | consensus/types.go:67-70 | decoding gives a byte for every leading pair of hex digits, the high one first |
| `BlockIds.HexStops` | consensus/types.go:67-70 | and stops only at a pair that is none |
| `BlockIds.HexValues` | consensus/types.go:67-70 | the digits decoded are those of either case, with their values |
| `BlockIds.NewBlockFromProto` | consensus/types.go:121-130 | field by field: ids of zeroes become null, every other field is unchanged |
| `BlockIds.BlockHasFieldsOfProto` | consensus/types.go:121-130 | so the previous id is null iff the raw one is nothing but zeroes, of whatever length |
| `BlockIds.CollectBlocks` | consensus/service.go:380-384 | the keys are the ids in the response, each key its block's own id, the last block winning |
| `BlockIds.GetBlock` | examples/devmode_consensus/engine.go:73-83 | on a canonical id the block the validator holds under it is found |
| `Compact.Pad` | signing/secp256k1.go:206-213 | zeros in front up to the size, and then the whole buffer |
| `Compact.SerializeCompact` | signing/secp256k1.go:186-197 | a panic unless both numbers are below 2^256; else 64 bytes, the digits of r to base 256 and then those of s, each with the units last |
| `Compact.SerializeDigits` | signing/secp256k1.go:186-197 | exactly the pairs below 2^256 are encoded, in that format |
| `Compact.DeserializeDigits` | signing/secp256k1.go:199-204 | r has the first 32 bytes as its digits and s all the others |
| `Compact.ValueConcat` | signing/secp256k1.go:199-204 | the value of bytes put together is the first shifted by the length of the second, and the second |
| `Compact.SerializeRoundTrip` | signing/secp256k1.go:186-204 | exactly the pairs below 2^256 are encoded, in 64 bytes, and decoding recovers them |
| `Compact.DeserializeRoundTrip` | signing/secp256k1.go:186-204 | of the strings that decode, exactly those of 64 bytes are reproduced |
| `Compact.PowThirtyTwo` | signing/secp256k1.go:189-190 | the bound of a 32-byte integer is 2^256 |
| `StringCopy.StrncpyS` | c/c11_support.c:22-65 | all return codes and the whole destination in each case, null pointers and zero sizes included |
| `StringCopy.StaysInBounds` | c/c11_support.c:42-64 | nothing at or past the size is written, whatever the outcome |
| `StringCopy.CopyLoop` | c/c11_support.c:42-52 | the loops copy the string with its terminator, or stop when the size or the count is used up |
| `StringCopy.FitsIffSucceeds` | c/loader.c:85-86 | with a terminated source and a count no smaller than the size: 0 iff the string and its terminator fit, else an empty string, or the longest terminated prefix when truncating |
| `StringCopy.TerminatedIffCountSuffices` | c/c11_support.c:47-52 | with a smaller count the result is unterminated iff the count runs out first |

## Left out

- ZMQ sockets, pollers, monitor sockets, signals, sleeps and reconnecting: replaced by FIFO channels and arbitrary steps.
- Protobuf encoding and everything under protobuf/: messages are datatypes whose decoding may fail.
- The `register` and `waitUntilActive` handshakes: runs start registered and active, with an empty work queue; a request that arrives during registration makes it fail before serving begins.
- The unregister exchange inside `shutdown`: it has no effect on workers or queue.
- Send failures of the router while it serves, and receive failures of a worker before the connection is closed.
- Handler panics, and service errors in devmode's send, check, fail, commit, ignore and chain head calls, on which it panics.
- `calculateWaitTime`: random, and only the fact that a timer expires matters here.
- Fairness: results of the form "on every schedule with enough turns" do not claim that the scheduler gives the turns; a full update channel can block the engine loop for ever.
- The status-to-error mapping of the `ZmqService` methods other than `serviceRpc` and `GetBlocks`: one branch each.
- Elliptic-curve arithmetic, hashing, key loading and the rest of c/: library calls.
- Logging, mocks, command-line examples and the intkey client.
- ProcessorThreads.AwaitWorkers: a single-threaded loop over a schedule of steps, since a method cannot be interrupted by other threads.
- ForkChoice.HandleBlockValid: does not model a walk that never meets a missing block or the height sought, which the program never leaves either.
