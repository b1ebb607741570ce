/** Accounting for requests and for workers: where every process request is, and
    how shutdown knows that every worker has ended. */
module ProcessorAccounting {
  import opened Common
  import opened Processor
  import Dispatch

  // ---- Where a request is -----------------------------------------------

  ghost function Carries(p: Parcel, k: nat): nat {
    if p.ticket == Some(k) then 1 else 0
  }

  /** The request a worker has taken: held by its handler, or lost when it exited. */
  ghost function Taken(wk: Worker): Option<Parcel> {
    match wk.phase
    case Applying(req) => Some(req)
    case Awaiting(req, _) => Some(req)
    case Exiting(lost, _) => lost
    case Ended(lost, _) => lost
    case _ => None
  }

  ghost function Takes(wk: Worker, k: nat): nat {
    if Taken(wk).Some? then Carries(Taken(wk).value, k) else 0
  }

  /** Answers to request `k` that the router has not forwarded yet. */
  ghost function Answers(wk: Worker, k: nat): nat {
    Sum(wk.outbox, Carries, k)
  }

  /** In how many places request `k` is: responses sent to the validator, work
      queue, workers that hold or lost it, responses on their way to the router. */
  ghost function Places(s: State, k: nat): nat {
    Sum(s.router.toValidator, Carries, k) + Sum(s.router.queue, Carries, k)
    + Sum(s.workers, Takes, k) + Sum(s.workers, Answers, k)
  }

  ghost function Received(s: State, k: nat): nat {
    if k < |s.router.received| then 1 else 0
  }

  /** The effect on the totals of changing one worker. */
  lemma WorkerMoves(ws: seq<Worker>, w: nat, wk: Worker, k: nat)
    requires w < |ws|
    ensures Sum(ws[w := wk], Takes, k) + Takes(ws[w], k) == Sum(ws, Takes, k) + Takes(wk, k)
    ensures Sum(ws[w := wk], Answers, k) + Answers(ws[w], k) == Sum(ws, Answers, k) + Answers(wk, k)
  {
    SumUpdate(ws, w, wk, Takes, k);
    SumUpdate(ws, w, wk, Answers, k);
  }

  /** One worker changes, and holds, has lost or has answered as much of request
      `k` as before. */
  lemma BalancedMoveConserves(s: State, s': State, w: nat, k: nat)
    requires w < |s.workers| && |s'.workers| == |s.workers|
    requires s'.workers == s.workers[w := s'.workers[w]]
    requires s'.router.queue == s.router.queue && s'.router.toValidator == s.router.toValidator
    requires Takes(s'.workers[w], k) + Answers(s'.workers[w], k) == Takes(s.workers[w], k) + Answers(s.workers[w], k)
    ensures Places(s', k) == Places(s, k)
  {
    WorkerMoves(s.workers, w, s'.workers[w], k);
  }

  /** A worker that keeps what it has taken and what it has sent. */
  lemma QuietMoveConserves(s: State, s': State, w: nat, k: nat)
    requires w < |s.workers| && |s'.workers| == |s.workers|
    requires s'.workers == s.workers[w := s'.workers[w]]
    requires s'.router.queue == s.router.queue && s'.router.toValidator == s.router.toValidator
    requires Taken(s'.workers[w]) == Taken(s.workers[w]) && s'.workers[w].outbox == s.workers[w].outbox
    ensures Places(s', k) == Places(s, k)
  {
    BalancedMoveConserves(s, s', w, k);
  }

  lemma RequestConserves(s: State, m: Message, handoff: nat, k: nat)
    requires m.kind == ProcessRequest
    ensures var s' := StepFromValidator(s, m, handoff);
            Places(s', k) + Received(s, k) == Places(s, k) + Received(s', k)
  {
    var r := s.router;
    var ticket := Some(|r.received|);
    if s.maxQueue == 0 && handoff < |s.workers| && s.workers[handoff].phase.Idle? {
      WorkerMoves(s.workers, handoff, StepFromValidator(s, m, handoff).workers[handoff], k);
    } else if |r.queue| < s.maxQueue {
      SumAppend(r.queue, Parcel(m, ticket), Carries, k);
    } else {
      SumAppend(r.toValidator, Parcel(Denial(m.corrId), ticket), Carries, k);
    }
  }

  lemma FromValidatorConserves(s: State, m: Message, handoff: nat, k: nat)
    ensures var s' := StepFromValidator(s, m, handoff);
            Places(s', k) + Received(s, k) == Places(s, k) + Received(s', k)
  {
    var r := s.router;
    if m.kind == ProcessRequest {
      RequestConserves(s, m, handoff, k);
    } else if m.kind == PingRequest {
      SumAppend(r.toValidator, Parcel(Message(PingResponse, m.corrId, Blob([])), None), Carries, k);
    } else if m.corrId in r.ids && m.corrId != "" && r.ids[m.corrId] < |s.workers| {
      QuietMoveConserves(s, StepFromValidator(s, m, handoff), r.ids[m.corrId], k);
    }
  }

  lemma FromWorkerConserves(s: State, w: nat, k: nat)
    requires w < |s.workers| && s.workers[w].outbox != []
    ensures Places(StepFromWorker(s, w), k) == Places(s, k)
  {
    var wk := s.workers[w];
    SumAppend(s.router.toValidator, wk.outbox[0], Carries, k);
    SumHead(wk.outbox, Carries, k);
    WorkerMoves(s.workers, w, wk.(outbox := wk.outbox[1..]), k);
  }

  lemma TakeConserves(s: State, w: nat, k: nat)
    requires w < |s.workers| && s.workers[w].phase.Idle?
    ensures Places(StepTake(s, w), k) == Places(s, k)
  {
    WorkerMoves(s.workers, w, StepTake(s, w).workers[w], k);
    if s.router.queue != [] {
      SumHead(s.router.queue, Carries, k);
    }
  }

  lemma AskMovesNothing(wk: Worker, c: CorrId, content: Content, k: nat)
    requires wk.phase.Applying?
    ensures var wk' := wk.(phase := Awaiting(wk.phase.req, c),
                           outbox := wk.outbox + [Parcel(Message(ContextRequest, c, content), None)]);
            Takes(wk', k) + Answers(wk', k) == Takes(wk, k) + Answers(wk, k)
  {
    SumAppend(wk.outbox, Parcel(Message(ContextRequest, c, content), None), Carries, k);
  }

  lemma AskConserves(s: State, w: nat, c: CorrId, content: Content, k: nat)
    requires w < |s.workers| && s.workers[w].phase.Applying?
    ensures Places(StepAsk(s, w, c, content), k) == Places(s, k)
  {
    AskMovesNothing(s.workers[w], c, content, k);
    BalancedMoveConserves(s, StepAsk(s, w, c, content), w, k);
  }

  /** Answering turns the request a worker holds into a response in its outbox,
      or into a lost one. */
  lemma RespondMovesOne(wk: Worker, o: Outcome, marshals: bool, closed: bool, k: nat)
    requires wk.phase.Applying?
    ensures var wk' := Respond(wk, o, marshals, closed);
            Takes(wk', k) + Answers(wk', k) == Takes(wk, k) + Answers(wk, k)
  {
    SumAppend(wk.outbox, Response(wk.phase.req, o), Carries, k);
  }

  lemma AnswerConserves(s: State, w: nat, o: Outcome, marshals: bool, k: nat)
    requires w < |s.workers| && s.workers[w].phase.Applying?
    ensures var wk' := Respond(s.workers[w], o, marshals, Closed(s.router.phase));
            Places(s.(workers := s.workers[w := wk']), k) == Places(s, k)
  {
    var wk' := Respond(s.workers[w], o, marshals, Closed(s.router.phase));
    RespondMovesOne(s.workers[w], o, marshals, Closed(s.router.phase), k);
    BalancedMoveConserves(s, s.(workers := s.workers[w := wk']), w, k);
  }

  /** No step creates, duplicates or loses a request: only receiving one adds one. */
  lemma NextConserves(s: State, step: Step, k: nat)
    ensures var s' := Next(s, step);
            Places(s', k) + Received(s, k) == Places(s, k) + Received(s', k)
  {
    match step
    case FromValidator(m, handoff) =>
      FromValidatorConserves(s, m, handoff, k);
    case FromWorker(w) =>
      if w < |s.workers| && s.workers[w].outbox != [] { FromWorkerConserves(s, w, k); }
    case Command(_) =>
    case Collect =>
    case Take(w) =>
      if w < |s.workers| && s.workers[w].phase.Idle? { TakeConserves(s, w, k); }
    case Ask(w, c, content) =>
      if w < |s.workers| && s.workers[w].phase.Applying? { AskConserves(s, w, c, content, k); }
    case Answer(w, o, marshals) =>
      if w < |s.workers| && s.workers[w].phase.Applying? { AnswerConserves(s, w, o, marshals, k); }
    case _ =>
      if step.w < |s.workers| { PhaseStepConserves(s, step, k); }
  }

  lemma PhaseStepConserves(s: State, step: Step, k: nat)
    requires (step.Connect? || step.Receive? || step.Signal?) && step.w < |s.workers|
    ensures Places(Next(s, step), k) == Places(s, k) && Next(s, step).router == s.router
  {
    QuietMoveConserves(s, Next(s, step), step.w, k);
  }

  /** In every state of every run each request received is in exactly one place. */
  lemma {:induction false} EachRequestInOnePlace(handlers: seq<Dispatch.Handler>, maxQueue: nat, threads: nat,
                                                 steps: seq<Step>, k: nat)
    ensures var s := Run(Init(handlers, maxQueue, threads), steps); Places(s, k) == Received(s, k)
    decreases |steps|
  {
    var s0 := Init(handlers, maxQueue, threads);
    if steps == [] {
      SumZero(s0.workers, Takes, k);
      SumZero(s0.workers, Answers, k);
    } else {
      EachRequestInOnePlace(handlers, maxQueue, threads, steps[..|steps| - 1], k);
      NextConserves(Run(s0, steps[..|steps| - 1]), steps[|steps| - 1], k);
    }
  }

  // ---- What a parcel holds ----------------------------------------------

  ghost predicate IsRequest(received: seq<Message>, p: Parcel) {
    p.ticket.Some? && p.ticket.value < |received| && p.msg == received[p.ticket.value]
  }

  /** Process responses, and only they, carry a ticket: that of the request
      whose correlation id they repeat. */
  ghost predicate IsOutgoing(received: seq<Message>, p: Parcel) {
    && (p.ticket.Some? <==> p.msg.kind == ProcessResponse)
    && (p.ticket.Some? ==> p.ticket.value < |received| && p.msg.corrId == received[p.ticket.value].corrId)
  }

  /** Why a worker leaves: without a request only if it could not connect or the queue
      is closed; with one only if that cannot be decoded, has no handler, got a response
      that does not marshal, or could not be answered because the connection is closed. */
  ghost predicate CauseOk(handlers: seq<Dispatch.Handler>, closed: bool, p: Phase) {
    p.Exiting? || p.Ended? ==>
      match p.cause
      case Disconnected => p.lost.None?
      case QueueClosed => p.lost.None? && closed
      case BadRequest => p.lost.Some? && !p.lost.value.msg.content.Transaction?
      case NoHandler =>
        && p.lost.Some? && p.lost.value.msg.content.Transaction? && !IsDispatchable(handlers, p.lost.value.msg)
      case Unmarshallable => p.lost.Some?
      case SendFailed => p.lost.Some? && closed
  }

  ghost predicate IsDispatchable(handlers: seq<Dispatch.Handler>, m: Message) {
    m.content.Transaction? && Dispatch.IsAnnounced(handlers, m.content.family, m.content.version)
  }

  ghost predicate WorkerLabelled(handlers: seq<Dispatch.Handler>, r: Router, wk: Worker) {
    && (Taken(wk).Some? ==> IsRequest(r.received, Taken(wk).value))
    && (forall p :: p in wk.outbox ==> IsOutgoing(r.received, p))
    && CauseOk(handlers, Closed(r.phase), wk.phase)
  }

  ghost predicate Labelled(s: State) {
    && (forall p :: p in s.router.queue ==> IsRequest(s.router.received, p))
    && (forall p :: p in s.router.toValidator ==> IsOutgoing(s.router.received, p))
    && forall w :: 0 <= w < |s.workers| ==> WorkerLabelled(s.handlers, s.router, s.workers[w])
  }

  lemma BeginIsLabelled(handlers: seq<Dispatch.Handler>, r: Router, wk: Worker, req: Parcel)
    requires WorkerLabelled(handlers, r, wk) && IsRequest(r.received, req)
    ensures WorkerLabelled(handlers, r, wk.(phase := Begin(handlers, req)))
  {
    if req.msg.content.Transaction? {
      Dispatch.AnnouncedIffDispatched(handlers, req.msg.content.family, req.msg.content.version);
    }
  }

  lemma ReceivingKeepsLabels(s: State, m: Message)
    requires Labelled(s)
    ensures Labelled(s.(router := s.router.(received := s.router.received + [m])))
  {
    var s' := s.(router := s.router.(received := s.router.received + [m]));
    forall w | 0 <= w < |s'.workers|
      ensures WorkerLabelled(s'.handlers, s'.router, s'.workers[w])
    {
      assert WorkerLabelled(s.handlers, s.router, s.workers[w]);
    }
  }

  lemma FromValidatorKeepsLabels(s: State, m: Message, handoff: nat)
    requires Labelled(s)
    ensures Labelled(StepFromValidator(s, m, handoff))
  {
    var s' := StepFromValidator(s, m, handoff);
    if m.kind == ProcessRequest {
      ReceivingKeepsLabels(s, m);
      if s.maxQueue == 0 && handoff < |s.workers| && s.workers[handoff].phase.Idle? {
        BeginIsLabelled(s.handlers, s'.router, s.workers[handoff], Parcel(m, Some(|s.router.received|)));
      }
    }
  }

  lemma TakeKeepsLabels(s: State, w: nat)
    requires Labelled(s) && w < |s.workers| && s.workers[w].phase.Idle?
    ensures Labelled(StepTake(s, w))
  {
    assert WorkerLabelled(s.handlers, s.router, s.workers[w]);
    if s.router.queue != [] {
      BeginIsLabelled(s.handlers, s.router, s.workers[w], s.router.queue[0]);
    }
  }

  lemma HandlerStepKeepsLabels(s: State, step: Step)
    requires Labelled(s) && (step.Ask? || step.Receive? || step.Answer?)
    ensures Labelled(Next(s, step))
  {
    if step.w < |s.workers| {
      assert WorkerLabelled(s.handlers, s.router, s.workers[step.w]);
    }
  }

  lemma PhaseStepKeepsLabels(s: State, step: Step)
    requires Labelled(s) && (step.Connect? || step.Signal?)
    ensures Labelled(Next(s, step))
  {
    if step.w < |s.workers| {
      assert WorkerLabelled(s.handlers, s.router, s.workers[step.w]);
    }
  }

  lemma NextKeepsLabels(s: State, step: Step)
    requires Labelled(s)
    ensures Labelled(Next(s, step))
  {
    match step
    case FromValidator(m, handoff) => FromValidatorKeepsLabels(s, m, handoff);
    case FromWorker(w) =>
      assert w < |s.workers| ==> WorkerLabelled(s.handlers, s.router, s.workers[w]);
    case Command(_) =>
    case Collect =>
    case Take(w) => if w < |s.workers| && s.workers[w].phase.Idle? { TakeKeepsLabels(s, w); }
    case Connect(_, _) => PhaseStepKeepsLabels(s, step);
    case Signal(_) => PhaseStepKeepsLabels(s, step);
    case _ => HandlerStepKeepsLabels(s, step);
  }

  lemma {:induction false} RunsAreLabelled(
    handlers: seq<Dispatch.Handler>, maxQueue: nat, threads: nat, steps: seq<Step>)
    ensures Labelled(Run(Init(handlers, maxQueue, threads), steps))
    ensures Run(Init(handlers, maxQueue, threads), steps).handlers == handlers
    decreases |steps|
  {
    if steps != [] {
      RunsAreLabelled(handlers, maxQueue, threads, steps[..|steps| - 1]);
      NextKeepsLabels(Run(Init(handlers, maxQueue, threads), steps[..|steps| - 1]), steps[|steps| - 1]);
    }
  }

  /** No request is answered twice, denials included, and an answer repeats the
      correlation id of the request it answers. */
  lemma AnsweredAtMostOnce(
    handlers: seq<Dispatch.Handler>, maxQueue: nat, threads: nat, steps: seq<Step>, i: nat, j: nat)
    requires var sent := Run(Init(handlers, maxQueue, threads), steps).router.toValidator;
             i <= j < |sent| && sent[i].msg.kind == ProcessResponse && sent[i].ticket == sent[j].ticket
    ensures var r := Run(Init(handlers, maxQueue, threads), steps).router;
            && i == j
            && r.toValidator[i].ticket.Some? && r.toValidator[i].ticket.value < |r.received|
            && r.toValidator[i].msg.corrId == r.received[r.toValidator[i].ticket.value].corrId
  {
    RunsAreLabelled(handlers, maxQueue, threads, steps);
    var r := Run(Init(handlers, maxQueue, threads), steps).router;
    assert r.toValidator[i] in r.toValidator;
    var k := r.toValidator[i].ticket.value;
    EachRequestInOnePlace(handlers, maxQueue, threads, steps, k);
    if i < j {
      SumIncludesTwo(r.toValidator, i, j, Carries, k);
    }
  }

  /** If the validator sends only decodable requests for registered pairs, no
      worker ever exits for a bad request or a missing handler. */
  lemma RegisteredRequestsFindHandlers(
    handlers: seq<Dispatch.Handler>, maxQueue: nat, threads: nat, steps: seq<Step>, w: nat)
    requires var s := Run(Init(handlers, maxQueue, threads), steps);
             && w < |s.workers|
             && (forall m :: m in s.router.received ==> IsDispatchable(handlers, m))
             && (s.workers[w].phase.Exiting? || s.workers[w].phase.Ended?)
    ensures var p := Run(Init(handlers, maxQueue, threads), steps).workers[w].phase;
            p.cause != NoHandler && p.cause != BadRequest
  {
    RunsAreLabelled(handlers, maxQueue, threads, steps);
    var s := Run(Init(handlers, maxQueue, threads), steps);
    assert WorkerLabelled(s.handlers, s.router, s.workers[w]);
    var lost := s.workers[w].phase.lost;
    assert lost.Some? ==> lost.value.msg in s.router.received;
  }

  // ---- Order -------------------------------------------------------------

  ghost function Arrival(p: Parcel): int {
    if p.ticket.Some? then p.ticket.value else -1
  }

  /** The queue is in order of arrival, and whatever a worker has taken arrived
      before everything still queued. */
  ghost predicate InOrder(s: State) {
    && (forall i, j :: 0 <= i < j < |s.router.queue| ==> Arrival(s.router.queue[i]) < Arrival(s.router.queue[j]))
    && (forall w, i :: 0 <= w < |s.workers| && 0 <= i < |s.router.queue| && Taken(s.workers[w]).Some? ==>
                         Arrival(Taken(s.workers[w]).value) < Arrival(s.router.queue[i]))
    && (s.maxQueue == 0 ==> s.router.queue == [])
  }

  lemma FromValidatorKeepsOrder(s: State, m: Message, handoff: nat)
    requires InOrder(s) && Labelled(s)
    ensures InOrder(StepFromValidator(s, m, handoff))
  {
    forall i | 0 <= i < |s.router.queue|
      ensures Arrival(s.router.queue[i]) < |s.router.received|
    {
      assert s.router.queue[i] in s.router.queue;
    }
    forall w | 0 <= w < |s.workers| && Taken(s.workers[w]).Some?
      ensures Arrival(Taken(s.workers[w]).value) < |s.router.received|
    {
      assert WorkerLabelled(s.handlers, s.router, s.workers[w]);
    }
  }

  /** A step of one worker that leaves the queue alone and takes nothing new. */
  lemma QuietMoveKeepsOrder(s: State, s': State, w: nat)
    requires InOrder(s) && w < |s.workers| == |s'.workers|
    requires s'.workers == s.workers[w := s'.workers[w]]
    requires s'.router.queue == s.router.queue && s'.maxQueue == s.maxQueue
    requires Taken(s'.workers[w]) == Taken(s.workers[w]) || Taken(s'.workers[w]) == None
    ensures InOrder(s')
  {
  }

  lemma TakeKeepsOrder(s: State, w: nat)
    requires InOrder(s) && w < |s.workers| && s.workers[w].phase.Idle?
    ensures InOrder(StepTake(s, w))
  {
    var q, q' := s.router.queue, StepTake(s, w).router.queue;
    assert q != [] ==> q' == q[1..] && forall i :: 0 <= i < |q'| ==> q'[i] == q[i + 1];
  }

  lemma NextKeepsOrder(s: State, step: Step)
    requires InOrder(s) && Labelled(s)
    ensures InOrder(Next(s, step))
  {
    match step
    case FromValidator(m, handoff) => FromValidatorKeepsOrder(s, m, handoff);
    case Command(_) =>
    case Collect =>
    case Take(w) => if w < |s.workers| && s.workers[w].phase.Idle? { TakeKeepsOrder(s, w); }
    case _ => if step.w < |s.workers| { WorkerStepKeepsOrder(s, step); }
  }

  lemma WorkerStepKeepsOrder(s: State, step: Step)
    requires step.FromWorker? || step.Connect? || step.Ask? || step.Receive? || step.Answer? || step.Signal?
    requires InOrder(s) && step.w < |s.workers|
    ensures InOrder(Next(s, step))
  {
    QuietMoveKeepsOrder(s, Next(s, step), step.w);
  }

  /** Requests are taken in the order in which they arrived. */
  lemma {:induction false} RunsAreInOrder(
    handlers: seq<Dispatch.Handler>, maxQueue: nat, threads: nat, steps: seq<Step>)
    ensures InOrder(Run(Init(handlers, maxQueue, threads), steps))
    decreases |steps|
  {
    if steps != [] {
      RunsAreInOrder(handlers, maxQueue, threads, steps[..|steps| - 1]);
      RunsAreLabelled(handlers, maxQueue, threads, steps[..|steps| - 1]);
      NextKeepsOrder(Run(Init(handlers, maxQueue, threads), steps[..|steps| - 1]), steps[|steps| - 1]);
    }
  }

  /** There is no room for a request: the queue is full, and if it is unbuffered no worker
      is waiting for one. */
  ghost predicate Full(s: State, handoff: nat) {
    && |s.router.queue| >= s.maxQueue
    && !(s.maxQueue == 0 && handoff < |s.workers| && s.workers[handoff].phase.Idle?)
  }

  /** A request is turned down exactly when there is no room; otherwise it is queued last,
      or given to the worker waiting at an unbuffered queue. */
  lemma DeniedOnlyWhenFull(s: State, m: Message, handoff: nat)
    requires s.router.phase.Serving? && m.kind == ProcessRequest
    ensures var s', req := Next(s, FromValidator(m, handoff)), Parcel(m, Some(|s.router.received|));
            if Full(s, handoff) then
              && s'.router.toValidator == s.router.toValidator + [Parcel(Denial(m.corrId), req.ticket)]
              && s'.router.queue == s.router.queue && s'.workers == s.workers
            else
              && s'.router.toValidator == s.router.toValidator
              && if s.maxQueue > 0 then s'.router.queue == s.router.queue + [req] && s'.workers == s.workers
                 else handoff < |s'.workers| && s'.workers[handoff].phase == Begin(s.handlers, req)
  {
  }

  // ---- Requests taken but not answered ----------------------------------

  /** Request `k` has left the queue and no response to it exists. */
  ghost predicate Unanswered(s: State, k: nat) {
    && k < |s.router.received|
    && Sum(s.router.queue, Carries, k) == 0
    && Sum(s.router.toValidator, Carries, k) == 0
    && Sum(s.workers, Answers, k) == 0
  }

  ghost function TakenTickets(ws: seq<Worker>): (t: set<nat>)
    ensures |t| <= |ws|
  {
    if ws == [] then {}
    else
      var front := TakenTickets(ws[..|ws| - 1]);
      var last := Taken(ws[|ws| - 1]);
      if last.Some? && last.value.ticket.Some? then
        var k := last.value.ticket.value;
        assert k !in front ==> |front + {k}| == |front| + 1;
        assert k in front ==> front + {k} == front;
        front + {k}
      else front
  }

  lemma {:induction false} TakenTicketsComplete(ws: seq<Worker>, k: nat)
    ensures Sum(ws, Takes, k) > 0 ==> k in TakenTickets(ws)
    decreases |ws|
  {
    if ws != [] {
      TakenTicketsComplete(ws[..|ws| - 1], k);
    }
  }

  /** At most as many requests are taken but unanswered as there are workers:
      a worker that drops a request never takes another. */
  lemma UnansweredBounded(handlers: seq<Dispatch.Handler>, maxQueue: nat, threads: nat, steps: seq<Step>)
    ensures var s := Run(Init(handlers, maxQueue, threads), steps);
            |set k | 0 <= k < |s.router.received| && Unanswered(s, k)| <= |s.workers|
  {
    var s := Run(Init(handlers, maxQueue, threads), steps);
    var unanswered := set k | 0 <= k < |s.router.received| && Unanswered(s, k);
    forall k | k in unanswered
      ensures k in TakenTickets(s.workers)
    {
      EachRequestInOnePlace(handlers, maxQueue, threads, steps, k);
      TakenTicketsComplete(s.workers, k);
    }
    SubsetCardinality(unanswered, TakenTickets(s.workers));
  }

  lemma SubsetCardinality(a: set<nat>, b: set<nat>)
    requires a <= b
    ensures |a| <= |b|
  {
    assert b == a + (b - a);
  }

  // ---- Shutdown ---------------------------------------------------------

  ghost function HasEnded(wk: Worker, k: nat): nat {
    if wk.phase.Ended? then 1 else 0
  }

  /** Done signals counted by shutdown so far. */
  ghost function Counted(s: State): nat {
    match s.router.phase
    case Draining(n) => n
    case Returned => |s.workers|
    case _ => 0
  }

  /** Every worker that has ended has signalled exactly once. */
  ghost predicate Signalled(s: State) {
    && s.done + Counted(s) == Sum(s.workers, HasEnded, 0)
    && |s.router.queue| <= s.maxQueue
  }

  /** A step of one worker that adds a signal exactly when the worker ends. */
  lemma WorkerStepKeepsSignals(s: State, s': State, w: nat)
    requires Signalled(s) && w < |s.workers| == |s'.workers|
    requires s'.workers == s.workers[w := s'.workers[w]] && s'.router.phase == s.router.phase
    requires s'.done + HasEnded(s.workers[w], 0) == s.done + HasEnded(s'.workers[w], 0)
    requires s'.maxQueue == s.maxQueue && |s'.router.queue| <= |s.router.queue|
    ensures Signalled(s')
  {
    SumUpdate(s.workers, w, s'.workers[w], HasEnded, 0);
  }

  lemma RequestStepKeepsSignals(s: State, step: Step)
    requires Signalled(s) && (step.FromWorker? || step.Take? || step.Ask?) && step.w < |s.workers|
    ensures Signalled(Next(s, step)) && |Next(s, step).workers| == |s.workers|
  {
    WorkerStepKeepsSignals(s, Next(s, step), step.w);
  }

  lemma PhaseStepKeepsSignals(s: State, step: Step)
    requires Signalled(s) && (step.Connect? || step.Receive? || step.Answer? || step.Signal?) && step.w < |s.workers|
    ensures Signalled(Next(s, step)) && |Next(s, step).workers| == |s.workers|
  {
    WorkerStepKeepsSignals(s, Next(s, step), step.w);
  }

  lemma NextKeepsSignals(s: State, step: Step)
    requires Signalled(s)
    ensures Signalled(Next(s, step)) && |Next(s, step).workers| == |s.workers|
  {
    match step
    case FromValidator(m, handoff) =>
      if s.router.phase.Serving? { FromValidatorKeepsSignals(s, m, handoff); }
    case Command(_) =>
    case Collect =>
    case _ =>
      if step.w < |s.workers| {
        if step.FromWorker? || step.Take? || step.Ask? {
          RequestStepKeepsSignals(s, step);
        } else {
          PhaseStepKeepsSignals(s, step);
        }
      }
  }

  lemma FromValidatorKeepsSignals(s: State, m: Message, handoff: nat)
    requires Signalled(s)
    ensures Signalled(StepFromValidator(s, m, handoff))
  {
    var s' := StepFromValidator(s, m, handoff);
    if m.kind == ProcessRequest {
      if handoff < |s.workers| {
        SumUpdate(s.workers, handoff, s'.workers[handoff], HasEnded, 0);
      }
    } else if m.corrId in s.router.ids && s.router.ids[m.corrId] < |s.workers| {
      var w := s.router.ids[m.corrId];
      SumUpdate(s.workers, w, s'.workers[w], HasEnded, 0);
    }
  }

  lemma {:induction false} RunsAreSignalled(
    handlers: seq<Dispatch.Handler>, maxQueue: nat, threads: nat, steps: seq<Step>)
    ensures Signalled(Run(Init(handlers, maxQueue, threads), steps))
    ensures |Run(Init(handlers, maxQueue, threads), steps).workers| == threads
    ensures Run(Init(handlers, maxQueue, threads), steps).maxQueue == maxQueue
    decreases |steps|
  {
    var s0 := Init(handlers, maxQueue, threads);
    if steps == [] {
      SumZero(s0.workers, HasEnded, 0);
    } else {
      RunsAreSignalled(handlers, maxQueue, threads, steps[..|steps| - 1]);
      NextKeepsSignals(Run(s0, steps[..|steps| - 1]), steps[|steps| - 1]);
    }
  }

  /** shutdown returns only after every worker has ended; the done channel never
      holds more than one signal per worker; the queue keeps to its bound. */
  lemma ShutdownWaitsForAll(handlers: seq<Dispatch.Handler>, maxQueue: nat, threads: nat, steps: seq<Step>)
    ensures var s := Run(Init(handlers, maxQueue, threads), steps);
            && (s.router.phase.Returned? ==>
                  forall w :: 0 <= w < threads ==> w < |s.workers| && s.workers[w].phase.Ended?)
            && s.done <= threads
            && |s.router.queue| <= maxQueue
  {
    RunsAreSignalled(handlers, maxQueue, threads, steps);
    var s := Run(Init(handlers, maxQueue, threads), steps);
    SumBound(s.workers, HasEnded, 0);
    if s.router.phase.Returned? {
      forall w | 0 <= w < threads
        ensures s.workers[w].phase.Ended?
      {
        assert HasEnded(s.workers[w], 0) == 1;
      }
    }
  }

  /** A worker on its way out can always signal at once, and after signalling it
      has ended for good. */
  lemma SignalNeverBlocks(handlers: seq<Dispatch.Handler>, maxQueue: nat, threads: nat, steps: seq<Step>, w: nat)
    requires var s := Run(Init(handlers, maxQueue, threads), steps);
             w < |s.workers| && s.workers[w].phase.Exiting?
    ensures var s := Run(Init(handlers, maxQueue, threads), steps);
            Next(s, Signal(w)).workers[w].phase.Ended? && Next(s, Signal(w)).done == s.done + 1
  {
    RunsAreSignalled(handlers, maxQueue, threads, steps);
    var s := Run(Init(handlers, maxQueue, threads), steps);
    SumBound(s.workers, HasEnded, 0);
    assert HasEnded(s.workers[w], 0) != 1;
  }

  lemma EndedStays(s: State, step: Step, w: nat)
    requires w < |s.workers| && s.workers[w].phase.Ended?
    ensures |Next(s, step).workers| == |s.workers| && Next(s, step).workers[w].phase == s.workers[w].phase
  {
  }

  lemma {:induction false} EndedIsFinal(s: State, steps: seq<Step>, w: nat)
    requires w < |s.workers| && s.workers[w].phase.Ended?
    ensures w < |Run(s, steps).workers| && Run(s, steps).workers[w].phase == s.workers[w].phase
    decreases |steps|
  {
    if steps != [] {
      EndedIsFinal(s, steps[..|steps| - 1], w);
      EndedStays(Run(s, steps[..|steps| - 1]), steps[|steps| - 1], w);
    }
  }

  lemma ClosedStep(s: State, step: Step)
    requires Closed(s.router.phase)
    ensures var r, r' := s.router, Next(s, step).router;
            && Closed(r'.phase) && r'.received == r.received && r'.toValidator == r.toValidator
            && (r'.queue == r.queue || (r.queue != [] && r'.queue == r.queue[1..]))
  {
  }

  /** Once the queue is closed nothing is enqueued or received any more: what is
      queued later is a suffix of what was queued then. */
  lemma {:induction false} NothingEnqueuedAfterClose(s: State, steps: seq<Step>) returns (taken: nat)
    requires Closed(s.router.phase)
    ensures var s' := Run(s, steps);
            && Closed(s'.router.phase)
            && s'.router.received == s.router.received
            && s'.router.toValidator == s.router.toValidator
            && taken <= |s.router.queue| && s'.router.queue == s.router.queue[taken..]
    decreases |steps|
  {
    if steps == [] {
      taken := 0;
    } else {
      taken := NothingEnqueuedAfterClose(s, steps[..|steps| - 1]);
      var before := Run(s, steps[..|steps| - 1]);
      ClosedStep(before, steps[|steps| - 1]);
      if Run(s, steps).router.queue != before.router.queue {
        taken := taken + 1;
      }
    }
  }
}
