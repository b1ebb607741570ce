/** The threads of the processor as they are written: the router's receive
    functions over its mutable maps and queue, the worker loop with all its
    exits, and the loop in which shutdown counts done signals.  Each is proved
    against the step functions of `Processor`. */
module ProcessorThreads {
  import opened Common
  import opened Processor
  import opened ProcessorAccounting
  import Dispatch

  /** What receiveValidator does with a message, where `waiting` says that a worker is
      blocked in its receive from the queue: the router state, and the request given
      straight to that worker if the queue is unbuffered. */
  function Routed(r: Router, maxQueue: nat, waiting: bool, m: Message): (x: (Router, Option<Parcel>)) {
    if m.kind == ProcessRequest && maxQueue == 0 && waiting then
      (r.(received := r.received + [m]), Some(Parcel(m, Some(|r.received|))))
    else (RouteValidator(r, m, |r.queue| < maxQueue), None)
  }

  /** That is the step of the whole system. */
  lemma RoutedIsStep(s: State, m: Message, w: nat)
    requires s.router.phase.Serving?
    ensures var (r, handed) := Routed(s.router, s.maxQueue, w < |s.workers| && s.workers[w].phase.Idle?, m);
            && Next(s, FromValidator(m, w)).router == r
            && Next(s, FromValidator(m, w)).workers
               == if handed.Some? then s.workers[w := s.workers[w].(phase := Begin(s.handlers, handed.value))]
                  else Deliver(s.router, r, s.workers)
  {
  }

  class RouterThread {
    const maxQueue: nat
    var phase: RouterPhase
    var ids: map<CorrId, nat>
    var queue: seq<Parcel>
    var received: seq<Message>
    var toValidator: seq<Parcel>
    var delivered: seq<Delivery>

    function View(): (r: Router)
      reads this
    {
      Router(phase, ids, queue, received, toValidator, delivered)
    }

    constructor (maxQueue: nat)
      ensures this.maxQueue == maxQueue
      ensures View() == Init([], maxQueue, 0).router
    {
      this.maxQueue := maxQueue;
      phase, ids, queue := Serving, map[], [];
      received, toValidator, delivered := [], [], [];
    }

    /** receiveValidator; `data` is None when the bytes do not decode. */
    method ReceiveValidator(data: Option<Message>, waiting: bool) returns (handed: Option<Parcel>)
      modifies this
      ensures (View(), handed) == if data.None? then (old(View()), None)
                                  else Routed(old(View()), maxQueue, waiting, data.value)
      ensures |old(queue)| <= maxQueue ==> |queue| <= maxQueue
      ensures data.Some? && data.value.kind == ProcessRequest ==>
                var m := data.value;
                var req := Parcel(m, Some(|old(received)|));
                && received == old(received) + [m] && ids == old(ids) && delivered == old(delivered)
                && handed == (if maxQueue == 0 && waiting then Some(req) else None)
                && queue == (if |old(queue)| < maxQueue then old(queue) + [req] else old(queue))
                && toValidator == if handed.Some? || |old(queue)| < maxQueue then old(toValidator)
                                  else old(toValidator)
                                       + [Parcel(Message(ProcessResponse, m.corrId, Reply(InternalError)), req.ticket)]
      ensures data.Some? && data.value.kind == PingRequest ==>
                && toValidator == old(toValidator)
                                  + [Parcel(Message(PingResponse, data.value.corrId, Blob([])), None)]
                && handed == None && queue == old(queue) && received == old(received)
                && ids == old(ids) && delivered == old(delivered)
      ensures data.Some? && data.value.kind != ProcessRequest && data.value.kind != PingRequest ==>
                var c := data.value.corrId;
                var known := c in old(ids) && c != "";
                && delivered == (if known then old(delivered) + [Delivery(old(ids)[c], data.value)] else old(delivered))
                && ids == (if known then old(ids) - {c} else old(ids))
                && handed == None && queue == old(queue) && received == old(received)
                && toValidator == old(toValidator)
    {
      handed := None;
      if data.None? {
        return;
      }
      var msg := data.value;
      var corrId := msg.corrId;
      match msg.kind
      case ProcessRequest =>
        var ticket := Some(|received|);
        received := received + [msg];
        if maxQueue == 0 && waiting {
          handed := Some(Parcel(msg, ticket));
        } else if |queue| < maxQueue {
          queue := queue + [Parcel(msg, ticket)];
        } else {
          toValidator := toValidator + [Parcel(Denial(corrId), ticket)];
        }
      case PingRequest =>
        toValidator := toValidator + [Parcel(Message(PingResponse, corrId, Blob([])), None)];
      case _ =>
        if corrId in ids && corrId != "" {
          delivered := delivered + [Delivery(ids[corrId], msg)];
          ids := ids - {corrId};
        }
    }

    /** receiveWorkers. */
    method ReceiveWorkers(workerId: nat, parcel: Parcel)
      modifies this
      ensures View() == RouteWorker(old(View()), workerId, parcel)
      ensures toValidator == old(toValidator) + [parcel]
      ensures ids == if parcel.msg.kind == ProcessResponse then old(ids) else old(ids)[parcel.msg.corrId := workerId]
    {
      if parcel.msg.kind != ProcessResponse {
        ids := ids[parcel.msg.corrId := workerId];
      }
      toValidator := toValidator + [parcel];
    }

    /** receiveShutdown up to the wait for the workers, and the answer it gives if shutdown
        meets no error: whether to start again. */
    method ReceiveShutdown(command: string) returns (restart: bool)
      modifies this
      ensures View() == RouteCommand(old(View()), command)
      ensures phase == if command == "shutdown" || command == "restart" then Draining(0) else Abandoned
      ensures restart <==> command == "restart"
    {
      restart := false;
      if command == "restart" {
        restart := true;
      } else if command != "shutdown" {
        phase := Abandoned;
        return false;
      }
      phase := Draining(0);
    }
  }

  /** One request from the queue with the choices made while it is processed. */
  datatype Job = Job(req: Parcel, outcome: Outcome, marshals: bool, sends: bool)

  ghost predicate Completes(handlers: seq<Dispatch.Handler>, job: Job) {
    IsDispatchable(handlers, job.req.msg) && job.marshals && job.sends
  }

  /** Why a worker exits on a job it does not complete. */
  ghost function ExitCause(handlers: seq<Dispatch.Handler>, job: Job): Cause
    requires !Completes(handlers, job)
  {
    if !job.req.msg.content.Transaction? then BadRequest
    else if !IsDispatchable(handlers, job.req.msg) then NoHandler
    else if !job.marshals then Unmarshallable
    else SendFailed
  }

  /** worker: answer requests in queue order up to the first that cannot be
      completed, then signal done once. */
  method RunWorker(handlers: seq<Dispatch.Handler>, connected: bool, jobs: seq<Job>)
    returns (sent: seq<Parcel>, signals: nat, end: Phase)
    ensures signals == 1
    ensures |sent| <= |jobs|
    ensures forall i :: 0 <= i < |sent| ==>
              var job := jobs[i];
              && Completes(handlers, job) && sent[i].ticket == job.req.ticket
              && sent[i].msg.kind == ProcessResponse && sent[i].msg.corrId == job.req.msg.corrId
              && sent[i].msg.content == Reply(if job.outcome == Applied then Ok
                                              else if job.outcome == Invalid || job.outcome == Unauthorized
                                              then InvalidTransaction else InternalError)
    ensures !connected ==> sent == [] && end == Ended(None, Disconnected)
    ensures connected && |sent| == |jobs| ==> end == Ended(None, QueueClosed)
    ensures connected && |sent| < |jobs| ==>
              var job := jobs[|sent|];
              !Completes(handlers, job) && end == Ended(Some(job.req), ExitCause(handlers, job))
  {
    sent, signals := [], 0;
    if !connected {
      signals := signals + 1;
      return sent, signals, Ended(None, Disconnected);
    }
    var exit := (None, QueueClosed);
    var i := 0;
    while i < |jobs|
      invariant 0 <= i <= |jobs| && |sent| == i && exit == (None, QueueClosed)
      invariant forall j :: 0 <= j < i ==>
                              Completes(handlers, jobs[j]) && sent[j] == Response(jobs[j].req, jobs[j].outcome)
    {
      var job := jobs[i];
      if !job.req.msg.content.Transaction? {
        exit := (Some(job.req), BadRequest);
        break;
      }
      var handler := Dispatch.FindHandler(handlers, job.req.msg.content.family, job.req.msg.content.version);
      Dispatch.AnnouncedIffDispatched(handlers, job.req.msg.content.family, job.req.msg.content.version);
      if handler.None? {
        exit := (Some(job.req), NoHandler);
        break;
      }
      var response := Message(ProcessResponse, job.req.msg.corrId, Reply(InternalError));
      match job.outcome {
        case Applied => response := response.(content := Reply(Ok));
        case Invalid => response := response.(content := Reply(InvalidTransaction));
        case Unauthorized => response := response.(content := Reply(InvalidTransaction));
        case Internal =>
        case Unknown =>
      }
      if !job.marshals {
        exit := (Some(job.req), Unmarshallable);
        break;
      }
      if !job.sends {
        exit := (Some(job.req), SendFailed);
        break;
      }
      sent := sent + [Parcel(response, job.req.ticket)];
      i := i + 1;
    }
    signals := signals + 1;
    end := Ended(exit.0, exit.1);
  }

  /** While shutdown drains, only counting a signal moves it on. */
  lemma DrainingStep(s: State, step: Step)
    requires Signalled(s) && s.router.phase.Draining? && s.router.phase.counted <= |s.workers|
    ensures var s' := Next(s, step);
            && Signalled(s') && Closed(s'.router.phase) && |s'.workers| == |s.workers|
            && (s'.router.phase.Draining? ==> s.router.phase.counted <= s'.router.phase.counted <= |s.workers|)
            && (step.Collect? && s.router.phase.counted == |s.workers| ==> s'.router.phase.Returned?)
            && (step.Collect? && s.router.phase.counted < |s.workers| && s.done > 0 ==>
                  s'.router.phase == Draining(s.router.phase.counted + 1))
  {
    NextKeepsSignals(s, step);
  }

  /** The end of shutdown: count one done signal for each worker, letting the
      scheduled steps happen while there is none.  It finishes only when every
      worker has ended; otherwise it is still blocked when the schedule is over. */
  method AwaitWorkers(s: State, schedule: seq<Step>) returns (s': State, finished: bool, ghost trace: seq<Step>)
    requires Signalled(s) && s.router.phase == Draining(0)
    ensures s' == Run(s, trace)
    ensures finished <==> s'.router.phase.Returned?
    ensures finished ==> forall w :: 0 <= w < |s'.workers| ==> s'.workers[w].phase.Ended?
    ensures !finished ==> s'.done == 0 && |s'.workers| > 0
  {
    s', trace := s, [];
    var next := 0;
    while s'.router.phase.Draining? && (s'.router.phase.counted == |s'.workers| || s'.done > 0 || next < |schedule|)
      invariant 0 <= next <= |schedule|
      invariant s' == Run(s, trace) && Signalled(s') && Closed(s'.router.phase)
      invariant s'.router.phase.Draining? ==> s'.router.phase.counted <= |s'.workers|
      decreases |schedule| - next, s'.router.phase.Draining?,
                if s'.router.phase.Draining? then |s'.workers| - s'.router.phase.counted else 0
    {
      var step := Collect;
      if s'.router.phase.counted < |s'.workers| && s'.done == 0 {
        step := schedule[next];
        next := next + 1;
      }
      DrainingStep(s', step);
      assert (trace + [step])[..|trace|] == trace;
      trace := trace + [step];
      s' := Next(s', step);
    }
    finished := s'.router.phase.Returned?;
    SumBound(s'.workers, HasEnded, 0);
    if finished {
      assert forall w :: 0 <= w < |s'.workers| ==> HasEnded(s'.workers[w], 0) == 1;
    }
  }
}
