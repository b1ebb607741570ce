/** What becomes of a request once a worker has taken it: when it is lost, how its
    answer reaches the validator, and what a response reports. */
module ProcessorResponses {
  import opened Common
  import opened Processor
  import opened ProcessorAccounting
  import Dispatch

  // ---- When a request is lost ---------------------------------------------

  /** In `steps` worker `w` gave an answer to `req` that did not marshal. */
  ghost predicate AnswerFailed(s: State, steps: seq<Step>, w: nat, req: Parcel) {
    exists i :: && 0 <= i < |steps| && steps[i].Answer? && steps[i].w == w && !steps[i].marshals
                && w < |Run(s, steps[..i]).workers| && Run(s, steps[..i]).workers[w].phase == Applying(req)
  }

  ghost predicate Unmarshalled(s: State, w: nat) {
    && w < |s.workers| && (s.workers[w].phase.Exiting? || s.workers[w].phase.Ended?)
    && s.workers[w].phase.cause == Unmarshallable
  }

  lemma UnmarshalledStep(s: State, step: Step, w: nat)
    requires Unmarshalled(Next(s, step), w)
    ensures var lost := Next(s, step).workers[w].phase.lost;
            || (Unmarshalled(s, w) && s.workers[w].phase.lost == lost)
            || (lost.Some? && step.Answer? && step.w == w && !step.marshals
                && w < |s.workers| && s.workers[w].phase == Applying(lost.value))
  {
  }

  lemma {:induction false} UnmarshalledWasAnswered(s: State, steps: seq<Step>, w: nat)
    requires Unmarshalled(Run(s, steps), w) && !Unmarshalled(s, w)
    ensures var lost := Run(s, steps).workers[w].phase.lost;
            lost.Some? && AnswerFailed(s, steps, w, lost.value)
    decreases |steps|
  {
    var n := |steps| - 1;
    var front := steps[..n];
    UnmarshalledStep(Run(s, front), steps[n], w);
    if Unmarshalled(Run(s, front), w) {
      UnmarshalledWasAnswered(s, front, w);
      var req := Run(s, front).workers[w].phase.lost.value;
      var i :| && 0 <= i < |front| && front[i].Answer? && front[i].w == w && !front[i].marshals
               && w < |Run(s, front[..i]).workers| && Run(s, front[..i]).workers[w].phase == Applying(req);
      assert steps[i] == front[i] && steps[..i] == front[..i];
    }
  }

  /** In every run, a worker that left without closing of the queue and connection
      lost a request only if that is undecodable, for an unregistered pair, or was
      given a response that does not marshal. */
  lemma LostOnlyFor(handlers: seq<Dispatch.Handler>, maxQueue: nat, threads: nat, steps: seq<Step>, w: nat)
    requires var s := Run(Init(handlers, maxQueue, threads), steps);
             && w < |s.workers| && (s.workers[w].phase.Exiting? || s.workers[w].phase.Ended?)
             && s.workers[w].phase.lost.Some?
    ensures var s0 := Init(handlers, maxQueue, threads);
            var s := Run(s0, steps);
            var lost := s.workers[w].phase.lost.value;
            || !IsDispatchable(handlers, lost.msg)
            || AnswerFailed(s0, steps, w, lost)
            || (Closed(s.router.phase) && s.workers[w].phase.cause == SendFailed)
  {
    var s0 := Init(handlers, maxQueue, threads);
    var s := Run(s0, steps);
    RunsAreLabelled(handlers, maxQueue, threads, steps);
    assert WorkerLabelled(s.handlers, s.router, s.workers[w]);
    if s.workers[w].phase.cause == Unmarshallable {
      UnmarshalledWasAnswered(s0, steps, w);
    }
  }

  // ---- What a worker sends arrives ----------------------------------------

  ghost predicate InOutbox(s: State, w: nat, p: Parcel, n: int) {
    w < |s.workers| && 0 <= n < |s.workers[w].outbox| && s.workers[w].outbox[n] == p
  }

  /** How often the router reads from worker `w`. */
  ghost function Reads(steps: seq<Step>, w: nat): nat {
    if steps == [] then 0
    else Reads(steps[..|steps| - 1], w) + if steps[|steps| - 1] == FromWorker(w) then 1 else 0
  }

  /** While the router serves, `p` is n-th in the outbox of worker `w`, or with the
      validator if n is negative. */
  ghost predicate Reaching(s: State, w: nat, p: Parcel, n: int) {
    s.router.phase.Serving? ==> if n >= 0 then InOutbox(s, w, p, n) else p in s.router.toValidator
  }

  lemma ReadBringsNearer(s: State, w: nat, p: Parcel, n: int)
    requires Reaching(s, w, p, n + 1)
    ensures Reaching(Next(s, FromWorker(w)), w, p, n)
  {
  }

  lemma OtherStepsKeepPlace(s: State, step: Step, w: nat, p: Parcel, n: int)
    requires Reaching(s, w, p, n) && step != FromWorker(w)
    ensures Reaching(Next(s, step), w, p, n)
  {
  }

  /** On every schedule, as long as the router serves: what is n-th in a worker's
      outbox is unchanged and in its place until the router has read n times from that
      worker, and one read later it is with the validator. */
  lemma {:induction false} OutboxReachesValidator(s: State, steps: seq<Step>, w: nat, p: Parcel, n: nat, left: int)
    requires InOutbox(s, w, p, n) && left == n - Reads(steps, w)
    ensures Reaching(Run(s, steps), w, p, left)
    decreases |steps|
  {
    if steps != [] {
      var front, step := steps[..|steps| - 1], steps[|steps| - 1];
      if step == FromWorker(w) {
        OutboxReachesValidator(s, front, w, p, n, left + 1);
        ReadBringsNearer(Run(s, front), w, p, left);
      } else {
        OutboxReachesValidator(s, front, w, p, n, left);
        OtherStepsKeepPlace(Run(s, front), step, w, p, left);
      }
    }
  }

  lemma AnswerStep(s: State, w: nat, o: Outcome)
    requires s.router.phase.Serving? && w < |s.workers| && s.workers[w].phase.Applying?
    ensures var s1 := Next(s, Answer(w, o, true));
            && w < |s1.workers| && s1.workers[w].phase.Idle?
            && InOutbox(s1, w, Response(s.workers[w].phase.req, o), |s.workers[w].outbox|)
  {
  }

  /** An answer that marshals, given while the router serves, leaves the worker ready
      for the next request, and reaches the validator under the request's ticket and
      correlation id with the status of the outcome, on every schedule in which the
      router goes on serving and reads the worker's messages. */
  lemma AnswerReachesValidator(s: State, w: nat, o: Outcome, steps: seq<Step>)
    requires s.router.phase.Serving? && w < |s.workers| && s.workers[w].phase.Applying?
    requires var s1 := Next(s, Answer(w, o, true));
             Run(s1, steps).router.phase.Serving? && Reads(steps, w) > |s.workers[w].outbox|
    ensures var s1, req := Next(s, Answer(w, o, true)), s.workers[w].phase.req;
            var status := if o == Applied then Ok
                          else if o == Invalid || o == Unauthorized then InvalidTransaction else InternalError;
            && w < |s1.workers| && s1.workers[w].phase.Idle?
            && Parcel(Message(ProcessResponse, req.msg.corrId, Reply(status)), req.ticket)
               in Run(s1, steps).router.toValidator
  {
    AnswerStep(s, w, o);
    var s1 := Next(s, Answer(w, o, true));
    var n := |s.workers[w].outbox|;
    OutboxReachesValidator(s1, steps, w, Response(s.workers[w].phase.req, o), n, n - Reads(steps, w));
  }

  // ---- Where messages come from, and what a response reports ------------------

  /** In state `s` this step is where `p` comes from: a worker's answer to its request, a
      request of its handler, or something the router sends of its own accord. */
  ghost predicate Originates(s: State, step: Step, p: Parcel) {
    || AnswersWith(s, step, p)
    || (step.Ask? && p == Parcel(Message(ContextRequest, step.corrId, step.content), None))
    || Denies(s, step, p)
    || (step.FromValidator? && step.msg.kind == PingRequest
        && p == Parcel(Message(PingResponse, step.msg.corrId, Blob([])), None))
  }

  ghost predicate AnswersWith(s: State, step: Step, p: Parcel) {
    && step.Answer? && step.marshals && step.w < |s.workers| && s.workers[step.w].phase.Applying?
    && p == Response(s.workers[step.w].phase.req, step.outcome)
  }

  /** The router serves, receives a request and has no room for it. */
  ghost predicate Denies(s: State, step: Step, p: Parcel) {
    && Receives(s, step) && Full(s, step.handoff)
    && p == Parcel(Denial(step.msg.corrId), Some(|s.router.received|))
  }

  ghost predicate Receives(s: State, step: Step) {
    s.router.phase.Serving? && step.FromValidator? && step.msg.kind == ProcessRequest
  }

  ghost predicate OriginBefore(s: State, steps: seq<Step>, p: Parcel) {
    exists i :: 0 <= i < |steps| && Originates(Run(s, steps[..i]), steps[i], p)
  }

  lemma OriginBeforeGrows(s: State, steps: seq<Step>, p: Parcel)
    requires steps != []
    requires var n := |steps| - 1; OriginBefore(s, steps[..n], p) || Originates(Run(s, steps[..n]), steps[n], p)
    ensures OriginBefore(s, steps, p)
  {
    var n := |steps| - 1;
    var front := steps[..n];
    if OriginBefore(s, front, p) {
      var i :| 0 <= i < |front| && Originates(Run(s, front[..i]), front[i], p);
      assert steps[..i] == front[..i] && steps[i] == front[i];
    }
  }

  /** Everything sent, or on its way, has its origin in a step of the run. */
  ghost predicate Reported(s0: State, steps: seq<Step>) {
    && OutboxReported(s0, steps, Run(s0, steps).router.toValidator)
    && (forall w :: 0 <= w < |Run(s0, steps).workers| ==> OutboxReported(s0, steps, Run(s0, steps).workers[w].outbox))
  }

  ghost predicate OutboxReported(s0: State, steps: seq<Step>, outbox: seq<Parcel>) {
    forall p :: p in outbox ==> OriginBefore(s0, steps, p)
  }

  /** Where what is sent to the validator comes from. */
  lemma SentStep(s: State, step: Step, p: Parcel)
    requires p in Next(s, step).router.toValidator
    ensures p in s.router.toValidator || Originates(s, step, p)
            || (step.FromWorker? && step.w < |s.workers| && p in s.workers[step.w].outbox)
  {
  }

  /** Where what a worker sends comes from. */
  lemma OutboxStep(s: State, step: Step, w: nat, p: Parcel)
    requires w < |Next(s, step).workers| && p in Next(s, step).workers[w].outbox
    ensures w < |s.workers| && (p in s.workers[w].outbox || Originates(s, step, p))
  {
  }

  lemma ReportedGrows(s0: State, steps: seq<Step>)
    requires steps != [] && Reported(s0, steps[..|steps| - 1])
    ensures Reported(s0, steps)
  {
    var front, step := steps[..|steps| - 1], steps[|steps| - 1];
    var s, s' := Run(s0, front), Run(s0, steps);
    forall p | p in s'.router.toValidator
      ensures OriginBefore(s0, steps, p)
    {
      SentStep(s, step, p);
      assert step.FromWorker? && step.w < |s.workers| ==> OutboxReported(s0, front, s.workers[step.w].outbox);
      OriginBeforeGrows(s0, steps, p);
    }
    forall w, p | 0 <= w < |s'.workers| && p in s'.workers[w].outbox
      ensures OriginBefore(s0, steps, p)
    {
      OutboxStep(s, step, w, p);
      assert OutboxReported(s0, front, s.workers[w].outbox);
      OriginBeforeGrows(s0, steps, p);
    }
  }

  /** In every run all that reaches the validator is a worker's answer to its request, a
      handler's own request unchanged, the denial of a request that found no room, or a
      ping response. */
  lemma {:induction false} RunsReport(handlers: seq<Dispatch.Handler>, maxQueue: nat, threads: nat, steps: seq<Step>)
    ensures Reported(Init(handlers, maxQueue, threads), steps)
    decreases |steps|
  {
    if steps != [] {
      RunsReport(handlers, maxQueue, threads, steps[..|steps| - 1]);
      ReportedGrows(Init(handlers, maxQueue, threads), steps);
    }
  }

  /** Every process response the validator gets is the denial of a request that found no
      room, an internal error, or tells the outcome its handler had for that very request:
      OK exactly for applied, invalid exactly for invalid or not authorized. */
  lemma StatusIsHandlersOutcome(
    handlers: seq<Dispatch.Handler>, maxQueue: nat, threads: nat, steps: seq<Step>, p: Parcel) returns (i: nat)
    requires p in Run(Init(handlers, maxQueue, threads), steps).router.toValidator
    requires p.msg.kind == ProcessResponse
    ensures i < |steps| && (steps[i].Answer? || steps[i].FromValidator?)
    ensures var s := Run(Init(handlers, maxQueue, threads), steps[..i]);
            if steps[i].Answer? then
              && steps[i].w < |s.workers| && s.workers[steps[i].w].phase.Applying?
              && s.workers[steps[i].w].phase.req.ticket == p.ticket
              && (p.msg.content == Reply(Ok) <==> steps[i].outcome == Applied)
              && (p.msg.content == Reply(InvalidTransaction) <==>
                    steps[i].outcome == Invalid || steps[i].outcome == Unauthorized)
              && (p.msg.content == Reply(InternalError) <==>
                    steps[i].outcome == Internal || steps[i].outcome == Unknown)
            else
              && Receives(s, steps[i]) && Full(s, steps[i].handoff)
              && p.ticket == Some(|s.router.received|) && p.msg.content == Reply(InternalError)
  {
    RunsReport(handlers, maxQueue, threads, steps);
    var s0 := Init(handlers, maxQueue, threads);
    assert OriginBefore(s0, steps, p);
    i :| 0 <= i < |steps| && Originates(Run(s0, steps[..i]), steps[i], p);
  }

  /** Worker `w` sends an answer to `req` with outcome `o`. */
  ghost predicate Sends(s: State, step: Step, w: nat, req: Parcel, o: Outcome) {
    && step == Answer(w, o, true) && !Closed(s.router.phase)
    && w < |s.workers| && s.workers[w].phase == Applying(req)
  }

  /** `p` has been sent by a worker and is with the validator or on its way there. */
  ghost predicate OnItsWay(s: State, w: nat, p: Parcel) {
    p in s.router.toValidator || (w < |s.workers| && p in s.workers[w].outbox)
  }

  lemma OnItsWayStep(s: State, step: Step, w: nat, p: Parcel)
    requires OnItsWay(s, w, p)
    ensures OnItsWay(Next(s, step), w, p)
  {
  }

  lemma {:induction false} OnItsWayStays(s: State, steps: seq<Step>, w: nat, p: Parcel)
    requires OnItsWay(s, w, p)
    ensures OnItsWay(Run(s, steps), w, p)
    decreases |steps|
  {
    if steps != [] {
      OnItsWayStays(s, steps[..|steps| - 1], w, p);
      OnItsWayStep(Run(s, steps[..|steps| - 1]), steps[|steps| - 1], w, p);
    }
  }

  lemma SentIsOnItsWay(s: State, step: Step, w: nat, req: Parcel, o: Outcome)
    requires Sends(s, step, w, req, o)
    ensures OnItsWay(Next(s, step), w, Response(req, o))
  {
  }

  lemma SentThenRest(s: State, step: Step, rest: seq<Step>, w: nat, req: Parcel, o: Outcome)
    requires Sends(s, step, w, req, o)
    ensures OnItsWay(Run(Next(s, step), rest), w, Response(req, o))
  {
    SentIsOnItsWay(s, step, w, req, o);
    OnItsWayStays(Next(s, step), rest, w, Response(req, o));
  }

  /** Two responses to one request, one with the validator and one with it or on its way
      there, are one and the same. */
  lemma OnlyOneOnItsWay(s: State, w: nat, p: Parcel, q: Parcel, k: nat)
    requires Places(s, k) <= 1 && p.ticket == Some(k) && q.ticket == Some(k)
    requires p in s.router.toValidator && OnItsWay(s, w, q)
    ensures p == q
  {
    var i :| 0 <= i < |s.router.toValidator| && s.router.toValidator[i] == p;
    SumIncludes(s.router.toValidator, i, Carries, k);
    if q in s.router.toValidator {
      var j :| 0 <= j < |s.router.toValidator| && s.router.toValidator[j] == q;
      if i < j {
        SumIncludesTwo(s.router.toValidator, i, j, Carries, k);
      } else if j < i {
        SumIncludesTwo(s.router.toValidator, j, i, Carries, k);
      }
    } else {
      var j :| 0 <= j < |s.workers[w].outbox| && s.workers[w].outbox[j] == q;
      SumIncludes(s.workers[w].outbox, j, Carries, k);
      SumIncludes(s.workers, w, Answers, k);
    }
  }

  lemma TakenHasTicket(s: State, w: nat, req: Parcel)
    requires Labelled(s) && w < |s.workers| && s.workers[w].phase == Applying(req)
    ensures req.ticket.Some?
  {
    assert WorkerLabelled(s.handlers, s.router, s.workers[w]);
  }

  /** In every run what the validator is told about a request is decided by the outcome its
      handler had for it: OK if it was applied, invalid if it was invalid or not
      authorized, and an internal error otherwise. */
  lemma OutcomeDecidesStatus(
    handlers: seq<Dispatch.Handler>, maxQueue: nat, threads: nat, steps: seq<Step>, i: nat,
    w: nat, req: Parcel, o: Outcome, p: Parcel)
    requires i < |steps| && Sends(Run(Init(handlers, maxQueue, threads), steps[..i]), steps[i], w, req, o)
    requires p in Run(Init(handlers, maxQueue, threads), steps).router.toValidator
    requires p.ticket == req.ticket
    ensures p.msg.kind == ProcessResponse && p.msg.corrId == req.msg.corrId
    ensures p.msg.content == Reply(if o == Applied then Ok
                                   else if o == Invalid || o == Unauthorized then InvalidTransaction
                                   else InternalError)
  {
    var s0 := Init(handlers, maxQueue, threads);
    RunsAreLabelled(handlers, maxQueue, threads, steps[..i]);
    TakenHasTicket(Run(s0, steps[..i]), w, req);
    var k := req.ticket.value;
    SentThenRest(Run(s0, steps[..i]), steps[i], steps[i + 1..], w, req, o);
    RunSplit(s0, steps, i);
    EachRequestInOnePlace(handlers, maxQueue, threads, steps, k);
    OnlyOneOnItsWay(Run(s0, steps), w, p, Response(req, o), k);
  }

  // ---- Pings ---------------------------------------------------------------------

  /** How many of `ps` answer a ping with id `c`. */
  ghost function PingResponses(ps: seq<Parcel>, c: CorrId): nat {
    if ps == [] then 0
    else
      var p := ps[|ps| - 1];
      PingResponses(ps[..|ps| - 1], c) + if p.msg.kind == PingResponse && p.msg.corrId == c then 1 else 0
  }

  /** How many pings with id `c` the router received while serving. */
  ghost function Pings(s: State, steps: seq<Step>, c: CorrId): nat {
    if steps == [] then 0
    else
      var front, step := steps[..|steps| - 1], steps[|steps| - 1];
      Pings(s, front, c) + if ReceivesPing(Run(s, front), step, c) then 1 else 0
  }

  ghost predicate ReceivesPing(s: State, step: Step, c: CorrId) {
    s.router.phase.Serving? && step.FromValidator? && step.msg.kind == PingRequest && step.msg.corrId == c
  }

  /** No worker sends ping responses. */
  ghost predicate NoPingInOutbox(s: State) {
    forall w, p :: 0 <= w < |s.workers| && p in s.workers[w].outbox ==> p.msg.kind != PingResponse
  }

  lemma NoPingStep(s: State, step: Step)
    requires NoPingInOutbox(s)
    ensures NoPingInOutbox(Next(s, step))
  {
    forall w, p | 0 <= w < |Next(s, step).workers| && p in Next(s, step).workers[w].outbox
      ensures p.msg.kind != PingResponse
    {
      OutboxOnlyGrowsBy(s, step, w, p);
    }
  }

  lemma OutboxOnlyGrowsBy(s: State, step: Step, w: nat, p: Parcel)
    requires w < |Next(s, step).workers| && p in Next(s, step).workers[w].outbox
    ensures w < |s.workers|
    ensures p in s.workers[w].outbox || p.msg.kind == ProcessResponse || p.msg.kind == ContextRequest
  {
  }

  /** How one step adds to what is with the validator. */
  lemma SentGrowsBy(s: State, step: Step, c: CorrId)
    requires NoPingInOutbox(s)
    ensures var sent, sent' := s.router.toValidator, Next(s, step).router.toValidator;
            || (sent' == sent && !ReceivesPing(s, step, c))
            || (|sent'| == |sent| + 1 && sent'[..|sent|] == sent
                && var p := sent'[|sent|];
                   (p.msg.kind == PingResponse && p.msg.corrId == c <==> ReceivesPing(s, step, c)))
  {
    if step.FromWorker? && step.w < |s.workers| && s.workers[step.w].outbox != [] {
      assert s.workers[step.w].outbox[0] in s.workers[step.w].outbox;
    }
  }

  lemma PingStep(s: State, step: Step, c: CorrId)
    requires NoPingInOutbox(s)
    ensures PingResponses(Next(s, step).router.toValidator, c)
         == PingResponses(s.router.toValidator, c) + if ReceivesPing(s, step, c) then 1 else 0
  {
    SentGrowsBy(s, step, c);
  }

  /** In every run the router has sent exactly as many ping responses under an id as it
      received pings with that id while serving. */
  lemma {:induction false} PingsAreAnswered(
    handlers: seq<Dispatch.Handler>, maxQueue: nat, threads: nat, steps: seq<Step>, c: CorrId)
    ensures var s0 := Init(handlers, maxQueue, threads);
            && NoPingInOutbox(Run(s0, steps))
            && PingResponses(Run(s0, steps).router.toValidator, c) == Pings(s0, steps, c)
    decreases |steps|
  {
    if steps != [] {
      var s0, n := Init(handlers, maxQueue, threads), |steps| - 1;
      PingsAreAnswered(handlers, maxQueue, threads, steps[..n], c);
      NoPingStep(Run(s0, steps[..n]), steps[n]);
      PingStep(Run(s0, steps[..n]), steps[n], c);
    }
  }

  // ---- Denials -------------------------------------------------------------------

  lemma ReceivedStep(s: State, step: Step)
    ensures |Next(s, step).router.received| == |s.router.received| + if Receives(s, step) then 1 else 0
  {
  }

  /** What has been received before step `i` is no more than before a later step `j`, and
      less if step `i` receives a request. */
  lemma {:induction false} ReceivedGrows(s: State, steps: seq<Step>, i: nat, j: nat)
    requires i < j <= |steps|
    ensures |Run(s, steps[..i]).router.received| + (if Receives(Run(s, steps[..i]), steps[i]) then 1 else 0)
            <= |Run(s, steps[..j]).router.received|
    decreases j
  {
    if i < j - 1 {
      ReceivedGrows(s, steps, i, j - 1);
    }
    assert steps[..j] == steps[..j - 1] + [steps[j - 1]];
    RunSnoc(s, steps[..j - 1], steps[j - 1]);
    ReceivedStep(Run(s, steps[..j - 1]), steps[j - 1]);
  }

  lemma SentStays(s: State, step: Step, p: Parcel)
    requires p in s.router.toValidator
    ensures p in Next(s, step).router.toValidator
  {
  }

  lemma {:induction false} SentStaysSent(s: State, steps: seq<Step>, p: Parcel)
    requires p in s.router.toValidator
    ensures p in Run(s, steps).router.toValidator
    decreases |steps|
  {
    if steps != [] {
      SentStaysSent(s, steps[..|steps| - 1], p);
      SentStays(Run(s, steps[..|steps| - 1]), steps[|steps| - 1], p);
    }
  }

  lemma DenialIsSent(s: State, step: Step, p: Parcel)
    requires Denies(s, step, p)
    ensures p in Next(s, step).router.toValidator
  {
  }

  ghost predicate AnsweredBefore(s: State, steps: seq<Step>, p: Parcel) {
    exists i :: 0 <= i < |steps| && AnswersWith(Run(s, steps[..i]), steps[i], p)
  }

  /** In every run: a request that finds no room, the queue full and no worker waiting at
      an unbuffered one, has been denied ever after and is nowhere else; any other is never
      denied: all that is sent in response to it is a worker's answer. */
  lemma DeniedIffFull(handlers: seq<Dispatch.Handler>, maxQueue: nat, threads: nat, steps: seq<Step>, i: nat)
    requires i < |steps| && Receives(Run(Init(handlers, maxQueue, threads), steps[..i]), steps[i])
    ensures var s0 := Init(handlers, maxQueue, threads);
            var before, s := Run(s0, steps[..i]), Run(s0, steps);
            var k := |before.router.received|;
            if Full(before, steps[i].handoff) then
              && Parcel(Denial(steps[i].msg.corrId), Some(k)) in s.router.toValidator
              && Sum(s.router.queue, Carries, k) + Sum(s.workers, Takes, k) + Sum(s.workers, Answers, k) == 0
            else
              forall p :: p in s.router.toValidator && p.ticket == Some(k) ==> AnsweredBefore(s0, steps, p)
  {
    var s0 := Init(handlers, maxQueue, threads);
    var before := Run(s0, steps[..i]);
    if Full(before, steps[i].handoff) {
      DeniedForGood(handlers, maxQueue, threads, steps, i, |before.router.received|);
    } else {
      RunsReport(handlers, maxQueue, threads, steps);
      forall p | p in Run(s0, steps).router.toValidator && p.ticket == Some(|before.router.received|)
        ensures AnsweredBefore(s0, steps, p)
      {
        assert OriginBefore(s0, steps, p);
        var j :| 0 <= j < |steps| && Originates(Run(s0, steps[..j]), steps[j], p);
        if j < i {
          ReceivedGrows(s0, steps, j, i);
        } else if i < j {
          ReceivedGrows(s0, steps, i, j);
        }
        assert AnswersWith(Run(s0, steps[..j]), steps[j], p);
      }
    }
  }

  lemma DenialThenRest(s: State, step: Step, rest: seq<Step>, p: Parcel)
    requires Denies(s, step, p)
    ensures p in Run(Next(s, step), rest).router.toValidator
  {
    DenialIsSent(s, step, p);
    SentStaysSent(Next(s, step), rest, p);
  }

  lemma DenialStaysSent(s: State, steps: seq<Step>, i: nat, p: Parcel)
    requires i < |steps| && Denies(Run(s, steps[..i]), steps[i], p)
    ensures p in Run(s, steps).router.toValidator
  {
    DenialThenRest(Run(s, steps[..i]), steps[i], steps[i + 1..], p);
    RunSplit(s, steps, i);
  }

  /** A request that has been responded to is nowhere else. */
  lemma RespondedIsNowhereElse(s: State, p: Parcel, k: nat)
    requires p in s.router.toValidator && p.ticket == Some(k) && Places(s, k) <= 1
    ensures Sum(s.router.queue, Carries, k) + Sum(s.workers, Takes, k) + Sum(s.workers, Answers, k) == 0
  {
    var j :| 0 <= j < |s.router.toValidator| && s.router.toValidator[j] == p;
    SumIncludes(s.router.toValidator, j, Carries, k);
  }

  lemma DeniedForGood(handlers: seq<Dispatch.Handler>, maxQueue: nat, threads: nat, steps: seq<Step>, i: nat, k: nat)
    requires i < |steps| && Receives(Run(Init(handlers, maxQueue, threads), steps[..i]), steps[i])
    requires Full(Run(Init(handlers, maxQueue, threads), steps[..i]), steps[i].handoff)
    requires k == |Run(Init(handlers, maxQueue, threads), steps[..i]).router.received|
    ensures var s := Run(Init(handlers, maxQueue, threads), steps);
            && Parcel(Denial(steps[i].msg.corrId), Some(k)) in s.router.toValidator
            && Sum(s.router.queue, Carries, k) + Sum(s.workers, Takes, k) + Sum(s.workers, Answers, k) == 0
  {
    var s0, p := Init(handlers, maxQueue, threads), Parcel(Denial(steps[i].msg.corrId), Some(k));
    DenialStaysSent(s0, steps, i, p);
    EachRequestInOnePlace(handlers, maxQueue, threads, steps, k);
    RespondedIsNowhereElse(Run(s0, steps), p, k);
  }

  // ---- A request is served -------------------------------------------------------

  /** A new processor with a worker serves every dispatchable request, whether its queue
      is buffered or not: received, taken, answered and read, it ends as one response
      with the handler's outcome, the only thing told to the validator. */
  lemma RequestIsServed(
    handlers: seq<Dispatch.Handler>, maxQueue: nat, threads: nat, m: Message, o: Outcome)
    requires threads > 0 && m.kind == ProcessRequest && IsDispatchable(handlers, m)
    ensures Run(Init(handlers, maxQueue, threads),
                [Connect(0, true)] + [FromValidator(m, 0)] + [Take(0)] + [Answer(0, o, true)] + [FromWorker(0)])
              .router.toValidator
            == [Parcel(Message(ProcessResponse, m.corrId,
                               Reply(if o == Applied then Ok
                                     else if o == Invalid || o == Unauthorized then InvalidTransaction
                                     else InternalError)),
                       Some(0))]
  {
    var s0 := Init(handlers, maxQueue, threads);
    RunSnoc(s0, [], Connect(0, true));
    RunSnoc(s0, [Connect(0, true)], FromValidator(m, 0));
    RunSnoc(s0, [Connect(0, true)] + [FromValidator(m, 0)], Take(0));
    RunSnoc(s0, [Connect(0, true)] + [FromValidator(m, 0)] + [Take(0)], Answer(0, o, true));
    RunSnoc(s0, [Connect(0, true)] + [FromValidator(m, 0)] + [Take(0)] + [Answer(0, o, true)], FromWorker(0));
    assert [] + [Connect(0, true)] == [Connect(0, true)];
    RequestIsTaken(s0, m);
    var s3 := Next(Next(Next(s0, Connect(0, true)), FromValidator(m, 0)), Take(0));
    TakenIsAnswered(s3, o);
  }

  lemma RequestIsTaken(s: State, m: Message)
    requires s == Init(s.handlers, s.maxQueue, |s.workers|) && |s.workers| > 0
    requires m.kind == ProcessRequest && IsDispatchable(s.handlers, m)
    ensures var s3 := Next(Next(Next(s, Connect(0, true)), FromValidator(m, 0)), Take(0));
            && s3.router.phase.Serving? && s3.router.toValidator == []
            && |s3.workers| > 0 && s3.workers[0].phase == Applying(Parcel(m, Some(0))) && s3.workers[0].outbox == []
  {
    Dispatch.AnnouncedIffDispatched(s.handlers, m.content.family, m.content.version);
    var s1 := Next(s, Connect(0, true));
    assert s1.workers[0].phase == Idle;
    var s2 := Next(s1, FromValidator(m, 0));
    assert s.maxQueue > 0 ==> s2.router.queue == [Parcel(m, Some(0))] && s2.workers == s1.workers;
  }

  lemma TakenIsAnswered(s: State, o: Outcome)
    requires s.router.phase.Serving? && s.router.toValidator == []
    requires |s.workers| > 0 && s.workers[0].phase.Applying? && s.workers[0].outbox == []
    ensures Next(Next(s, Answer(0, o, true)), FromWorker(0)).router.toValidator
            == [Response(s.workers[0].phase.req, o)]
  {
  }
}
