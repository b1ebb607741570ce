/** Progress of the transaction processor: a handler's call makes the round trip to the
    validator on every schedule, and every request that is queued can be answered. */
module ProcessorProgress {
  import opened Common
  import opened Processor
  import opened ProcessorRouting
  import opened ProcessorAccounting
  import opened ProcessorResponses
  import Dispatch

  // ---- The round trip of a context call -----------------------------------------

  /** The step brings a message from the validator that can answer the call `c`. */
  ghost predicate Responds(step: Step, c: CorrId) {
    step.FromValidator? && IsResponse(step.msg, c)
  }

  ghost predicate IsResponse(m: Message, c: CorrId) {
    m.corrId == c && m.kind != ProcessRequest && m.kind != PingRequest
  }

  /** While the router serves, worker `w` is in the call `c` for `req`, has got nothing and
      has `left` messages still to be read, or none if that is negative. */
  ghost predicate Asking(s: State, w: nat, req: Parcel, c: CorrId, left: int) {
    s.router.phase.Serving? ==>
      && w < |s.workers| && s.workers[w].phase == Awaiting(req, c) && s.workers[w].inbox == []
      && |s.workers[w].outbox| == if left > 0 then left else 0
  }

  /** Worker `w` is in its handler, and `c` is a fresh id. */
  ghost predicate CanAsk(s: State, w: nat, c: CorrId) {
    && s.router.phase.Serving? && w < |s.workers| && s.workers[w].phase.Applying?
    && c !in s.asked && c != ""
  }

  lemma AskBegins(s: State, w: nat, c: CorrId, content: Content)
    requires Routed(s) && CanAsk(s, w, c)
    ensures Asking(Next(s, Ask(w, c, content)), w, s.workers[w].phase.req, c, |s.workers[w].outbox| + 1)
  {
    assert WorkerRouted(s.router, s.asked, w, s.workers[w]);
  }

  lemma ReadMovesCall(s: State, w: nat, req: Parcel, c: CorrId, left: int)
    requires Asking(s, w, req, c, left + 1)
    ensures Asking(Next(s, FromWorker(w)), w, req, c, left)
  {
  }

  lemma OtherMessagesKeepCall(s: State, m: Message, handoff: nat, w: nat, req: Parcel, c: CorrId, left: int)
    requires Routed(s) && Asking(s, w, req, c, left) && !IsResponse(m, c)
    ensures Asking(Next(s, FromValidator(m, handoff)), w, req, c, left)
  {
    if m.corrId in s.router.ids {
      assert EntryRouted(s, m.corrId);
    }
  }

  lemma OtherThreadsKeepCall(s: State, step: Step, w: nat, req: Parcel, c: CorrId, left: int)
    requires Routed(s) && Asking(s, w, req, c, left) && !step.FromValidator? && step != FromWorker(w)
    ensures Asking(Next(s, step), w, req, c, left)
  {
    if w < |s.workers| {
      assert WorkerRouted(s.router, s.asked, w, s.workers[w]);
    }
  }

  lemma {:induction false} RunKeepsRouted(s: State, steps: seq<Step>)
    requires Routed(s)
    ensures Routed(Run(s, steps))
    decreases |steps|
  {
    if steps != [] {
      RunKeepsRouted(s, steps[..|steps| - 1]);
      NextKeepsRouted(Run(s, steps[..|steps| - 1]), steps[|steps| - 1]);
    }
  }

  lemma {:induction false} AskingThroughout(
    s: State, steps: seq<Step>, w: nat, req: Parcel, c: CorrId, n: int, left: int)
    requires Routed(s) && Asking(s, w, req, c, n) && left == n - Reads(steps, w)
    requires forall step :: step in steps ==> !Responds(step, c)
    ensures Asking(Run(s, steps), w, req, c, left)
    decreases |steps|
  {
    if steps != [] {
      var front, step := steps[..|steps| - 1], steps[|steps| - 1];
      assert step in steps && forall x :: x in front ==> x in steps;
      RunKeepsRouted(s, front);
      if step == FromWorker(w) {
        AskingThroughout(s, front, w, req, c, n, left + 1);
        ReadMovesCall(Run(s, front), w, req, c, left);
      } else {
        AskingThroughout(s, front, w, req, c, n, left);
        if step.FromValidator? {
          OtherMessagesKeepCall(Run(s, front), step.msg, step.handoff, w, req, c, left);
        } else {
          OtherThreadsKeepCall(Run(s, front), step, w, req, c, left);
        }
      }
    }
  }

  /** The response `m` to the call `c` for `req` is waiting in the inbox of worker `w`. */
  ghost predicate Holding(s: State, w: nat, req: Parcel, c: CorrId, m: Message) {
    && w < |s.workers| && s.workers[w].phase == Awaiting(req, c) && s.workers[w].inbox == [m] && m.corrId == c
  }

  lemma ResponseIsHeld(s: State, w: nat, req: Parcel, c: CorrId, m: Message, handoff: nat)
    requires Routed(s) && CanAnswer(s, w, m) && s.workers[w].phase == Awaiting(req, c)
    ensures Holding(Next(s, FromValidator(m, handoff)), w, req, c, m)
  {
    ResponseGoesToCaller(s, w, m);
    assert StepFromValidator(s, m, handoff) == StepFromValidator(s, m, 0);
  }

  lemma HoldingMessage(s: State, x: Message, handoff: nat, w: nat, req: Parcel, c: CorrId, m: Message)
    requires Routed(s) && Holding(s, w, req, c, m)
    ensures Holding(Next(s, FromValidator(x, handoff)), w, req, c, m)
  {
    assert WorkerRouted(s.router, s.asked, w, s.workers[w]);
    if x.corrId in s.router.ids {
      assert EntryRouted(s, x.corrId);
    }
  }

  lemma HoldingStep(s: State, step: Step, w: nat, req: Parcel, c: CorrId, m: Message)
    requires Routed(s) && Holding(s, w, req, c, m) && !(step.Receive? && step.w == w)
    ensures Holding(Next(s, step), w, req, c, m)
  {
    if step.FromValidator? {
      HoldingMessage(s, step.msg, step.handoff, w, req, c, m);
    }
  }

  lemma {:induction false} HoldingThroughout(
    s: State, steps: seq<Step>, w: nat, req: Parcel, c: CorrId, m: Message)
    requires Routed(s) && Holding(s, w, req, c, m)
    requires forall step :: step in steps ==> !(step.Receive? && step.w == w)
    ensures Holding(Run(s, steps), w, req, c, m)
    decreases |steps|
  {
    if steps != [] {
      var front, step := steps[..|steps| - 1], steps[|steps| - 1];
      assert step in steps && forall x :: x in front ==> x in steps;
      RunKeepsRouted(s, front);
      HoldingThroughout(s, front, w, req, c, m);
      HoldingStep(Run(s, front), step, w, req, c, m);
    }
  }

  lemma ReceiveReturns(s: State, w: nat, req: Parcel, c: CorrId, m: Message)
    requires Routed(s) && Holding(s, w, req, c, m)
    ensures var s' := Next(s, Receive(w, false));
            w < |s'.workers| && s'.workers[w] == s.workers[w].(phase := Applying(req), inbox := [])
  {
    assert WorkerRouted(s.router, s.asked, w, s.workers[w]);
  }

  /** A call with a fresh id, made in any reachable state in which the router serves, makes
      the round trip on every schedule.  Once the router, serving, has read the worker's
      messages, a response can be taken; the first one goes to the worker, is still there
      after any further steps that are not the worker's receive, and that receive returns
      it to the handler of the same request. */
  lemma CallMakesRoundTrip(
    handlers: seq<Dispatch.Handler>, maxQueue: nat, threads: nat, steps: seq<Step>, w: nat, c: CorrId,
    content: Content, more: seq<Step>, m: Message, handoff: nat, rest: seq<Step>)
    requires CanAsk(Run(Init(handlers, maxQueue, threads), steps), w, c)
    requires forall step :: step in more ==> !Responds(step, c)
    requires IsResponse(m, c) && forall step :: step in rest ==> !(step.Receive? && step.w == w)
    ensures var s := Run(Init(handlers, maxQueue, threads), steps);
            var asked := Run(Next(s, Ask(w, c, content)), more);
            var answered := Run(Next(asked, FromValidator(m, handoff)), rest);
            var req := s.workers[w].phase.req;
            asked.router.phase.Serving? && Reads(more, w) > |s.workers[w].outbox| ==>
              && CanAnswer(asked, w, m)
              && Holding(answered, w, req, c, m)
              && var after := Next(answered, Receive(w, false));
                 w < |after.workers| && after.workers[w].phase == Applying(req) && after.workers[w].inbox == []
  {
    var s := Run(Init(handlers, maxQueue, threads), steps);
    var req, n := s.workers[w].phase.req, |s.workers[w].outbox| + 1;
    RunsAreRouted(handlers, maxQueue, threads, steps);
    var s1 := Next(s, Ask(w, c, content));
    AskBegins(s, w, c, content);
    NextKeepsRouted(s, Ask(w, c, content));
    if Run(s1, more).router.phase.Serving? && Reads(more, w) >= n {
      RoundTripFrom(s1, w, req, c, n, more, m, handoff, rest);
    }
  }

  lemma RoundTripFrom(
    s: State, w: nat, req: Parcel, c: CorrId, n: int, more: seq<Step>, m: Message, handoff: nat, rest: seq<Step>)
    requires Routed(s) && Asking(s, w, req, c, n) && Reads(more, w) >= n && Run(s, more).router.phase.Serving?
    requires forall step :: step in more ==> !Responds(step, c)
    requires IsResponse(m, c) && forall step :: step in rest ==> !(step.Receive? && step.w == w)
    ensures var asked := Run(s, more);
            var answered := Run(Next(asked, FromValidator(m, handoff)), rest);
            && CanAnswer(asked, w, m)
            && Holding(answered, w, req, c, m)
            && var after := Next(answered, Receive(w, false));
               w < |after.workers| && after.workers[w].phase == Applying(req) && after.workers[w].inbox == []
  {
    AskingThroughout(s, more, w, req, c, n, n - Reads(more, w));
    RunKeepsRouted(s, more);
    var asked := Run(s, more);
    ResponseIsHeld(asked, w, req, c, m, handoff);
    NextKeepsRouted(asked, FromValidator(m, handoff));
    var held := Next(asked, FromValidator(m, handoff));
    HoldingThroughout(held, rest, w, req, c, m);
    RunKeepsRouted(held, rest);
    ReceiveReturns(Run(held, rest), w, req, c, m);
  }

  // ---- Queued requests can be answered --------------------------------------------

  ghost predicate Live(wk: Worker) {
    !wk.phase.Exiting? && !wk.phase.Ended?
  }

  /** The router still serves, with the same queue and handlers. */
  ghost predicate Steady(s: State, s': State) {
    && s'.router.phase.Serving? && s'.router.queue == s.router.queue && s'.handlers == s.handlers
    && |s'.workers| == |s.workers|
  }

  lemma SteadyStep(s: State, step: Step)
    requires s.router.phase.Serving?
    requires step.Connect? || step.FromWorker? || step.Receive? || step.Answer?
             || (step.FromValidator? && step.msg.kind != ProcessRequest)
    ensures Steady(s, Next(s, step))
  {
  }

  ghost function ReadsOf(w: nat, n: nat): (steps: seq<Step>)
    ensures |steps| == n && forall step :: step in steps ==> step == FromWorker(w)
  {
    if n == 0 then [] else ReadsOf(w, n - 1) + [FromWorker(w)]
  }

  lemma {:induction false} ReadsOfReads(s: State, w: nat, n: nat)
    requires s.router.phase.Serving?
    ensures Reads(ReadsOf(w, n), w) == n && Steady(s, Run(s, ReadsOf(w, n)))
    decreases n
  {
    if n > 0 {
      ReadsOfReads(s, w, n - 1);
      assert ReadsOf(w, n)[..n - 1] == ReadsOf(w, n - 1);
      RunSnoc(s, ReadsOf(w, n - 1), FromWorker(w));
      SteadyStep(Run(s, ReadsOf(w, n - 1)), FromWorker(w));
    }
  }

  /** Worker `w` is busy with a request, and shows it by its phase. */
  ghost predicate IsApplying(s: State, w: nat) {
    w < |s.workers| && s.workers[w].phase.Applying?
  }

  /** A worker in a call can be brought out of it. */
  lemma CallCanReturn(s: State, w: nat) returns (more: seq<Step>)
    requires Routed(s) && s.router.phase.Serving? && w < |s.workers| && s.workers[w].phase.Awaiting?
    ensures var s' := Run(s, more); Routed(s') && Steady(s, s') && IsApplying(s', w)
  {
    var req, c := s.workers[w].phase.req, s.workers[w].phase.corrId;
    assert WorkerRouted(s.router, s.asked, w, s.workers[w]);
    if s.workers[w].inbox != [] {
      more := [Receive(w, false)];
      assert Holding(s, w, req, c, s.workers[w].inbox[0]);
      ReceiveReturns(s, w, req, c, s.workers[w].inbox[0]);
      SteadyStep(s, Receive(w, false));
      RunCons(s, Receive(w, false), []);
      assert more == [Receive(w, false)] + [];
      NextKeepsRouted(s, Receive(w, false));
    } else {
      var n, m := |s.workers[w].outbox|, Message(Other, c, Blob([]));
      var turns := ReadsOf(w, n);
      ReadsOfReads(s, w, n);
      RoundTripFrom(s, w, req, c, n, turns, m, 0, []);
      more := turns + [FromValidator(m, 0)] + [Receive(w, false)];
      var s1 := Run(s, turns);
      var s2 := Next(s1, FromValidator(m, 0));
      SteadyStep(s1, FromValidator(m, 0));
      SteadyStep(s2, Receive(w, false));
      RunSnoc(s, turns, FromValidator(m, 0));
      RunSnoc(s, turns + [FromValidator(m, 0)], Receive(w, false));
      RunKeepsRouted(s, more);
    }
  }

  lemma AnswerMakesIdle(s: State, w: nat)
    requires s.router.phase.Serving? && IsApplying(s, w)
    ensures var s' := Next(s, Answer(w, Applied, true)); w < |s'.workers| && s'.workers[w].phase.Idle?
  {
  }

  /** A live worker can be brought to wait for the next request. */
  lemma CanBecomeIdle(s: State, w: nat) returns (more: seq<Step>)
    requires Routed(s) && s.router.phase.Serving? && w < |s.workers| && Live(s.workers[w])
    ensures var s' := Run(s, more); Steady(s, s') && w < |s'.workers| && s'.workers[w].phase.Idle?
  {
    if s.workers[w].phase.Idle? {
      return [];
    }
    if s.workers[w].phase.Starting? {
      more := [Connect(w, true)];
      RunCons(s, Connect(w, true), []);
      assert more == [Connect(w, true)] + [];
      SteadyStep(s, Connect(w, true));
      return;
    }
    var first: seq<Step> := [];
    if s.workers[w].phase.Awaiting? {
      first := CallCanReturn(s, w);
    }
    var s1 := Run(s, first);
    more := first + [Answer(w, Applied, true)];
    RunSnoc(s, first, Answer(w, Applied, true));
    AnswerMakesIdle(s1, w);
    SteadyStep(s1, Answer(w, Applied, true));
  }

  /** An idle worker takes the first request and answers it. */
  lemma ServeFirst(s: State, w: nat, o: Outcome)
    requires s.router.phase.Serving? && w < |s.workers| && s.workers[w].phase.Idle? && s.router.queue != []
    requires IsDispatchable(s.handlers, s.router.queue[0].msg)
    ensures var s' := Next(Next(s, Take(w)), Answer(w, o, true));
            && s'.router.phase.Serving? && s'.handlers == s.handlers && s'.router.queue == s.router.queue[1..]
            && w < |s'.workers| && s'.workers[w].phase.Idle?
            && s'.workers[w].outbox == s.workers[w].outbox + [Response(s.router.queue[0], o)]
  {
    var m := s.router.queue[0].msg;
    Dispatch.AnnouncedIffDispatched(s.handlers, m.content.family, m.content.version);
    var s1 := Next(s, Take(w));
    assert s1.workers[w] == s.workers[w].(phase := Applying(s.router.queue[0]));
  }

  lemma {:induction false} ServeThrough(s: State, w: nat, k: nat, o: Outcome) returns (more: seq<Step>)
    requires s.router.phase.Serving? && w < |s.workers| && s.workers[w].phase.Idle? && k < |s.router.queue|
    requires forall j :: 0 <= j <= k ==> IsDispatchable(s.handlers, s.router.queue[j].msg)
    ensures var s' := Run(s, more);
            s'.router.phase.Serving? && w < |s'.workers| && Response(s.router.queue[k], o) in s'.workers[w].outbox
    decreases k
  {
    ServeFirst(s, w, o);
    var s1 := Next(s, Take(w));
    var s2 := Next(s1, Answer(w, o, true));
    var rest: seq<Step> := [];
    if k > 0 {
      rest := ServeThrough(s2, w, k - 1, o);
    }
    more := [Take(w)] + ([Answer(w, o, true)] + rest);
    RunCons(s, Take(w), [Answer(w, o, true)] + rest);
    RunCons(s1, Answer(w, o, true), rest);
  }

  /** From every reachable state in which the router serves and some worker is alive, every
      queued request can be answered with any outcome, provided that it and the requests
      before it are dispatchable: some continuation sends its response to the validator. */
  lemma QueuedRequestCanBeAnswered(
    handlers: seq<Dispatch.Handler>, maxQueue: nat, threads: nat, steps: seq<Step>, w: nat, k: nat, o: Outcome)
    returns (more: seq<Step>)
    requires var s := Run(Init(handlers, maxQueue, threads), steps);
             && s.router.phase.Serving? && w < |s.workers| && Live(s.workers[w]) && k < |s.router.queue|
             && forall j :: 0 <= j <= k ==> IsDispatchable(s.handlers, s.router.queue[j].msg)
    ensures var s := Run(Init(handlers, maxQueue, threads), steps);
            Response(s.router.queue[k], o) in Run(s, more).router.toValidator
  {
    var s := Run(Init(handlers, maxQueue, threads), steps);
    RunsAreRouted(handlers, maxQueue, threads, steps);
    var idle := CanBecomeIdle(s, w);
    var s1 := Run(s, idle);
    var serve := ServeThrough(s1, w, k, o);
    var s2 := Run(s1, serve);
    var read := CanBeRead(s2, w, Response(s.router.queue[k], o));
    more := idle + serve + read;
    RunAppend(s, idle, serve);
    RunAppend(s, idle + serve, read);
  }

  lemma CanBeRead(s: State, w: nat, p: Parcel) returns (more: seq<Step>)
    requires s.router.phase.Serving? && w < |s.workers| && p in s.workers[w].outbox
    ensures p in Run(s, more).router.toValidator
  {
    var n :| 0 <= n < |s.workers[w].outbox| && s.workers[w].outbox[n] == p;
    more := ReadsOf(w, n + 1);
    ReadsOfReads(s, w, n + 1);
    OutboxReachesValidator(s, more, w, p, n, -1);
  }
}
