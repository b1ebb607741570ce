/** The transaction processor: one router thread, a bounded work queue and a
    pool of worker threads (processor/processor.go, processor/worker.go,
    processor/context.go).  Every goroutine's next action is one `Step`; a run
    is any sequence of steps, so a statement about all runs covers every
    interleaving of router, workers and validator. */
module Processor {
  import opened Common
  import Dispatch

  // ---- Messages --------------------------------------------------------

  type CorrId = string

  datatype Kind =
    | ProcessRequest    // TP_PROCESS_REQUEST
    | ProcessResponse   // TP_PROCESS_RESPONSE
    | PingRequest
    | PingResponse
    | ContextRequest    // state get/set/delete, receipt and event requests
    | Other             // everything else, in particular the context responses

  datatype Status = Ok | InvalidTransaction | InternalError

  datatype Content =
    | Transaction(family: string, version: string)  // a decodable TpProcessRequest
    | Reply(status: Status)                          // a TpProcessResponse
    | Blob(data: seq<Byte>)                          // any other bytes

  datatype Message = Message(kind: Kind, corrId: CorrId, content: Content)

  /** A message with the arrival number of the process request it belongs to,
      if it belongs to one.  Requests are told apart by arrival number because
      the validator may repeat a correlation id. */
  datatype Parcel = Parcel(msg: Message, ticket: Option<nat>)

  /** What a handler's Apply may return. */
  datatype Outcome = Applied | Invalid | Internal | Unauthorized | Unknown

  function StatusOf(o: Outcome): Status {
    match o
    case Applied => Ok
    case Invalid => InvalidTransaction
    case Internal => InternalError
    case Unauthorized => InvalidTransaction
    case Unknown => InternalError
  }

  // ---- State -----------------------------------------------------------

  datatype RouterPhase =
    | Serving
    | Draining(counted: nat)  // queue and connection closed, counting done signals
    | Returned                // shutdown() has returned
    | Abandoned               // start() returned without closing anything

  datatype Delivery = Delivery(worker: nat, msg: Message)

  datatype Router = Router(
    phase: RouterPhase,
    ids: map<CorrId, nat>,
    queue: seq<Parcel>,
    received: seq<Message>,      // process requests so far; the index is the ticket
    toValidator: seq<Parcel>,    // everything sent to the validator
    delivered: seq<Delivery>)    // everything sent to a worker

  datatype Cause = Disconnected | QueueClosed | BadRequest | NoHandler | Unmarshallable | SendFailed

  datatype Phase =
    | Starting
    | Idle                                    // receiving from the queue
    | Applying(req: Parcel)                   // inside the handler
    | Awaiting(req: Parcel, corrId: CorrId)   // inside RecvMsgWithId(corrId)
    | Exiting(lost: Option<Parcel>, cause: Cause)
    | Ended(lost: Option<Parcel>, cause: Cause)

  datatype Worker = Worker(
    phase: Phase,
    inbox: seq<Message>,           // router to worker, FIFO
    outbox: seq<Parcel>,           // worker to router, FIFO
    stash: map<CorrId, Message>)   // ZmqConnection.incoming

  datatype State = State(
    handlers: seq<Dispatch.Handler>,
    maxQueue: nat,
    router: Router,
    workers: seq<Worker>,
    done: nat,                     // signals in the workers_done channel
    asked: map<CorrId, nat>)       // which worker generated each correlation id

  predicate Closed(p: RouterPhase) {
    p.Draining? || p.Returned?
  }

  const NEW_WORKER := Worker(Starting, [], [], map[])

  function Init(handlers: seq<Dispatch.Handler>, maxQueue: nat, threads: nat): (s: State) {
    State(handlers, maxQueue, Router(Serving, map[], [], [], [], []),
          seq(threads, _ => NEW_WORKER), 0, map[])
  }

  // ---- Router steps ----------------------------------------------------

  function Denial(c: CorrId): Message {
    Message(ProcessResponse, c, Reply(InternalError))
  }

  /** receiveValidator for a decodable message.  `accepted` says whether the
      non-blocking send to the work queue went through. */
  function RouteValidator(r: Router, m: Message, accepted: bool): (r': Router) {
    if m.kind == ProcessRequest then
      var ticket := Some(|r.received|);
      var r1 := r.(received := r.received + [m]);
      if accepted then r1.(queue := r.queue + [Parcel(m, ticket)])
      else r1.(toValidator := r.toValidator + [Parcel(Denial(m.corrId), ticket)])
    else if m.kind == PingRequest then
      r.(toValidator := r.toValidator + [Parcel(Message(PingResponse, m.corrId, Blob([])), None)])
    else if m.corrId in r.ids && m.corrId != "" then
      r.(ids := r.ids - {m.corrId}, delivered := r.delivered + [Delivery(r.ids[m.corrId], m)])
    else r
  }

  /** receiveWorkers for a message `p` from worker `w`. */
  function RouteWorker(r: Router, w: nat, p: Parcel): (r': Router) {
    r.(ids := if p.msg.kind != ProcessResponse then r.ids[p.msg.corrId := w] else r.ids,
       toValidator := r.toValidator + [p])
  }

  /** receiveShutdown: the queue is closed for the two known commands only. */
  function RouteCommand(r: Router, command: string): (r': Router) {
    r.(phase := if command == "shutdown" || command == "restart" then Draining(0) else Abandoned)
  }

  /** The worker side of a delivery, if the router just made one. */
  function Deliver(before: Router, after: Router, workers: seq<Worker>): (ws: seq<Worker>)
    ensures |ws| == |workers|
  {
    if |before.delivered| < |after.delivered| then
      var d := after.delivered[|after.delivered| - 1];
      if d.worker < |workers| then
        workers[d.worker := workers[d.worker].(inbox := workers[d.worker].inbox + [d.msg])]
      else workers
    else workers
  }

  // ---- Worker steps ----------------------------------------------------

  /** From taking `req` off the queue to entering the handler. */
  function Begin(handlers: seq<Dispatch.Handler>, req: Parcel): (p: Phase) {
    match req.msg.content
    case Transaction(family, version) =>
      if Dispatch.Find(handlers, family, version).Some? then Applying(req)
      else Exiting(Some(req), NoHandler)
    case _ => Exiting(Some(req), BadRequest)
  }

  /** One turn of RecvMsgWithId: a stash hit (which keeps the entry), or the
      next message from the router, returned on a match and stashed otherwise. */
  function ReceiveOne(wk: Worker): (wk': Worker)
    requires wk.phase.Awaiting?
  {
    var c := wk.phase.corrId;
    if c in wk.stash then wk.(phase := Applying(wk.phase.req))
    else if wk.inbox == [] then wk
    else if wk.inbox[0].corrId == c then wk.(phase := Applying(wk.phase.req), inbox := wk.inbox[1..])
    else wk.(inbox := wk.inbox[1..], stash := wk.stash[wk.inbox[0].corrId := wk.inbox[0]])
  }

  function Response(req: Parcel, o: Outcome): Parcel {
    Parcel(Message(ProcessResponse, req.msg.corrId, Reply(StatusOf(o))), req.ticket)
  }

  /** Processing the handler's outcome; sending fails once the connection is closed. */
  function Respond(wk: Worker, o: Outcome, marshals: bool, closed: bool): (wk': Worker)
    requires wk.phase.Applying?
  {
    var req := wk.phase.req;
    if !marshals then wk.(phase := Exiting(Some(req), Unmarshallable))
    else if closed then wk.(phase := Exiting(Some(req), SendFailed))
    else wk.(phase := Idle, outbox := wk.outbox + [Response(req, o)])
  }

  // ---- Steps and runs --------------------------------------------------

  datatype Step =
    | FromValidator(msg: Message, handoff: nat)    // receiveValidator
    | FromWorker(w: nat)                           // receiveWorkers
    | Command(command: string)                     // receiveShutdown
    | Collect                                      // one <-workers_done in shutdown
    | Connect(w: nat, ok: bool)                    // start of worker
    | Take(w: nat)                                 // range queue
    | Ask(w: nat, corrId: CorrId, content: Content) // SendNewMsg in a Context method
    | Receive(w: nat, fails: bool)                 // inside RecvMsgWithId
    | Answer(w: nat, outcome: Outcome, marshals: bool)
    | Signal(w: nat)                               // done <- ...

  function StepFromValidator(s: State, m: Message, handoff: nat): (s': State)
  {
    var r := s.router;
    if m.kind == ProcessRequest && s.maxQueue == 0 && handoff < |s.workers| && s.workers[handoff].phase.Idle? then
      // an unbuffered channel passes the request straight to a waiting worker
      var req := Parcel(m, Some(|r.received|));
      s.(router := r.(received := r.received + [m]),
         workers := s.workers[handoff := s.workers[handoff].(phase := Begin(s.handlers, req))])
    else
      var r' := RouteValidator(r, m, |r.queue| < s.maxQueue);
      s.(router := r', workers := Deliver(r, r', s.workers))
  }

  function StepFromWorker(s: State, w: nat): (s': State)
    requires w < |s.workers| && s.workers[w].outbox != []
  {
    var wk := s.workers[w];
    s.(router := RouteWorker(s.router, w, wk.outbox[0]),
       workers := s.workers[w := wk.(outbox := wk.outbox[1..])])
  }

  function StepCollect(s: State): (s': State)
    requires s.router.phase.Draining?
  {
    var n := s.router.phase.counted;
    if n == |s.workers| then s.(router := s.router.(phase := Returned))
    else if s.done > 0 then s.(done := s.done - 1, router := s.router.(phase := Draining(n + 1)))
    else s
  }

  function StepTake(s: State, w: nat): (s': State)
    requires w < |s.workers| && s.workers[w].phase.Idle?
  {
    var wk := s.workers[w];
    var q := s.router.queue;
    if q != [] then
      s.(router := s.router.(queue := q[1..]),
         workers := s.workers[w := wk.(phase := Begin(s.handlers, q[0]))])
    else if Closed(s.router.phase) then
      s.(workers := s.workers[w := wk.(phase := Exiting(None, QueueClosed))])
    else s
  }

  function StepAsk(s: State, w: nat, c: CorrId, content: Content): (s': State)
    requires w < |s.workers| && s.workers[w].phase.Applying?
  {
    var wk := s.workers[w];
    if c in s.asked || c == "" then s  // ids are fresh version 4 UUIDs
    else if Closed(s.router.phase) then s.(asked := s.asked[c := w])  // the call returns an error
    else
      s.(asked := s.asked[c := w],
         workers := s.workers[w := wk.(phase := Awaiting(wk.phase.req, c),
                                       outbox := wk.outbox + [Parcel(Message(ContextRequest, c, content), None)])])
  }

  /** One step of the whole system; a step that is not possible changes nothing. */
  function Next(s: State, step: Step): (s': State) {
    match step
    case FromValidator(m, handoff) => if s.router.phase.Serving? then StepFromValidator(s, m, handoff) else s
    case FromWorker(w) =>
      if s.router.phase.Serving? && w < |s.workers| && s.workers[w].outbox != [] then StepFromWorker(s, w) else s
    case Command(command) =>
      if s.router.phase.Serving? then s.(router := RouteCommand(s.router, command)) else s
    case Collect => if s.router.phase.Draining? then StepCollect(s) else s
    case Connect(w, ok) =>
      if w < |s.workers| && s.workers[w].phase.Starting? then
        s.(workers := s.workers[w := s.workers[w].(phase := if ok then Idle else Exiting(None, Disconnected))])
      else s
    case Take(w) => if w < |s.workers| && s.workers[w].phase.Idle? then StepTake(s, w) else s
    case Ask(w, c, content) => if w < |s.workers| && s.workers[w].phase.Applying? then StepAsk(s, w, c, content) else s
    case Receive(w, fails) =>
      if w < |s.workers| && s.workers[w].phase.Awaiting? then
        var wk := s.workers[w];
        s.(workers := s.workers[w := if fails && Closed(s.router.phase) then wk.(phase := Applying(wk.phase.req))
                                     else ReceiveOne(wk)])
      else s
    case Answer(w, outcome, marshals) =>
      if w < |s.workers| && s.workers[w].phase.Applying? then
        s.(workers := s.workers[w := Respond(s.workers[w], outcome, marshals, Closed(s.router.phase))])
      else s
    case Signal(w) =>
      if w < |s.workers| && s.workers[w].phase.Exiting? && s.done < |s.workers| then
        var p := s.workers[w].phase;
        s.(done := s.done + 1, workers := s.workers[w := s.workers[w].(phase := Ended(p.lost, p.cause))])
      else s
  }

  function Run(s: State, steps: seq<Step>): (s': State)
    decreases |steps|
  {
    if steps == [] then s else Next(Run(s, steps[..|steps| - 1]), steps[|steps| - 1])
  }

  lemma RunSnoc(s: State, steps: seq<Step>, step: Step)
    ensures Run(s, steps + [step]) == Next(Run(s, steps), step)
  {
    assert (steps + [step])[..|steps|] == steps;
  }

  lemma {:induction false} RunCons(s: State, step: Step, steps: seq<Step>)
    ensures Run(s, [step] + steps) == Run(Next(s, step), steps)
    decreases |steps|
  {
    var all := [step] + steps;
    if steps == [] {
      assert all[..0] == [] && Run(s, all[..0]) == s;
    } else {
      RunCons(s, step, steps[..|steps| - 1]);
      assert all[..|all| - 1] == [step] + steps[..|steps| - 1];
    }
  }

  lemma {:induction false} RunAppend(s: State, steps: seq<Step>, more: seq<Step>)
    ensures Run(s, steps + more) == Run(Run(s, steps), more)
    decreases |more|
  {
    if more == [] {
      assert steps + more == steps;
    } else {
      RunAppend(s, steps, more[..|more| - 1]);
      assert (steps + more)[..|steps + more| - 1] == steps + more[..|more| - 1];
    }
  }

  /** The run up to a step, the step, and the rest of the run. */
  lemma RunSplit(s: State, steps: seq<Step>, i: nat)
    requires i < |steps|
    ensures Run(s, steps) == Run(Next(Run(s, steps[..i]), steps[i]), steps[i + 1..])
  {
    assert steps == steps[..i] + ([steps[i]] + steps[i + 1..]);
    RunAppend(s, steps[..i], [steps[i]] + steps[i + 1..]);
    RunCons(Run(s, steps[..i]), steps[i], steps[i + 1..]);
  }
}
