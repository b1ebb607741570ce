/** Routing safety of the transaction processor: whatever the interleaving and
    whatever the validator sends, a context response reaches only the worker
    that asked for it, at most once, and never has to be stashed. */
module ProcessorRouting {
  import opened Common
  import opened Processor
  import Dispatch

  ghost predicate Owns(asked: map<CorrId, nat>, c: CorrId, w: nat) {
    c in asked && asked[c] == w
  }

  ghost predicate Awaits(wk: Worker, c: CorrId) {
    wk.phase.Awaiting? && wk.phase.corrId == c
  }

  /** Correlation id `c` has been delivered to some worker. */
  ghost predicate IsDelivered(r: Router, c: CorrId) {
    exists d :: d in r.delivered && d.msg.corrId == c
  }

  /** The message in the inbox, if any, answers the call the worker is blocked
      in; the request in the outbox, if any, is the last thing it sent. */
  ghost predicate WorkerRouted(r: Router, asked: map<CorrId, nat>, w: nat, wk: Worker) {
    && wk.stash == map[]
    && (wk.phase.Awaiting? ==> Owns(asked, wk.phase.corrId, w))
    && (wk.phase.Awaiting? && !Closed(r.phase) ==> InFlight(r, wk, wk.phase.corrId))
    && |wk.inbox| <= 1
    && (wk.inbox != [] ==> InboxRouted(r, asked, w, wk, wk.inbox[0]))
    && forall k :: 0 <= k < |wk.outbox| && wk.outbox[k].msg.kind != ProcessResponse ==>
                     k == |wk.outbox| - 1 && RequestRouted(r, asked, w, wk, wk.outbox[k].msg.corrId)
  }

  /** The call `c` is somewhere: its request is still to be read by the router,
      the router has recorded it, or its response is on the way back. */
  ghost predicate InFlight(r: Router, wk: Worker, c: CorrId) {
    || (wk.outbox != [] && wk.outbox[|wk.outbox| - 1].msg.kind == ContextRequest
        && wk.outbox[|wk.outbox| - 1].msg.corrId == c)
    || c in r.ids
    || wk.inbox != []
  }

  ghost predicate InboxRouted(r: Router, asked: map<CorrId, nat>, w: nat, wk: Worker, m: Message) {
    && Owns(asked, m.corrId, w)
    && m.corrId !in r.ids
    && Delivery(w, m) in r.delivered
    && (wk.phase.Awaiting? ==> wk.phase.corrId == m.corrId)
    && (!Closed(r.phase) ==> wk.phase.Awaiting?)
  }

  ghost predicate RequestRouted(r: Router, asked: map<CorrId, nat>, w: nat, wk: Worker, c: CorrId) {
    && c != ""
    && Owns(asked, c, w)
    && c !in r.ids
    && !IsDelivered(r, c)
    && (!Closed(r.phase) ==> Awaits(wk, c))
  }

  /** An entry of `ids` names the worker that still awaits that id. */
  ghost predicate EntryRouted(s: State, c: CorrId)
    requires c in s.router.ids
  {
    var w := s.router.ids[c];
    && c != ""
    && w < |s.workers|
    && Owns(s.asked, c, w)
    && !IsDelivered(s.router, c)
    && (!Closed(s.router.phase) ==> Awaits(s.workers[w], c))
  }

  /** No id is delivered twice, and every delivery goes to the worker that asked. */
  ghost predicate DeliveriesRouted(r: Router, asked: map<CorrId, nat>) {
    && (forall d :: d in r.delivered ==> Owns(asked, d.msg.corrId, d.worker))
    && forall i, j :: 0 <= i < j < |r.delivered| ==> r.delivered[i].msg.corrId != r.delivered[j].msg.corrId
  }

  ghost predicate OneEntryEach(ids: map<CorrId, nat>) {
    forall b, c :: b in ids && c in ids && ids[b] == ids[c] ==> b == c
  }

  ghost predicate Routed(s: State) {
    && (forall w :: 0 <= w < |s.workers| ==> WorkerRouted(s.router, s.asked, w, s.workers[w]))
    && (forall c :: c in s.router.ids ==> EntryRouted(s, c))
    && OneEntryEach(s.router.ids)
    && DeliveriesRouted(s.router, s.asked)
  }

  /** Delivering `d` leaves the routing of every worker it does not concern alone. */
  lemma DeliveryKeepsOthers(r: Router, r': Router, asked: map<CorrId, nat>, d: Delivery, v: nat, wk: Worker)
    requires WorkerRouted(r, asked, v, wk)
    requires r' == r.(ids := r.ids - {d.msg.corrId}, delivered := r.delivered + [d])
    requires Owns(asked, d.msg.corrId, d.worker) && v != d.worker
    ensures WorkerRouted(r', asked, v, wk)
  {
  }

  /** A worker named in `ids` has an empty inbox and no request left to send. */
  lemma NamedWorkerIsQuiet(s: State, c: CorrId)
    requires Routed(s) && s.router.phase.Serving? && c in s.router.ids
    ensures var w := s.router.ids[c];
            && w < |s.workers| && Awaits(s.workers[w], c) && s.workers[w].inbox == []
            && forall k :: 0 <= k < |s.workers[w].outbox| ==> s.workers[w].outbox[k].msg.kind == ProcessResponse
  {
    assert EntryRouted(s, c);
    assert WorkerRouted(s.router, s.asked, s.router.ids[c], s.workers[s.router.ids[c]]);
  }

  lemma RouteResponseKeepsRouted(s: State, m: Message)
    requires Routed(s) && s.router.phase.Serving?
    requires m.kind != ProcessRequest && m.kind != PingRequest && m.corrId in s.router.ids
    ensures Routed(StepFromValidator(s, m, 0))
  {
    var s' := StepFromValidator(s, m, 0);
    assert EntryRouted(s, m.corrId);
    NamedWorkerIsQuiet(s, m.corrId);
    var w := s.router.ids[m.corrId];
    var d := Delivery(w, m);
    assert s'.router == s.router.(ids := s.router.ids - {m.corrId}, delivered := s.router.delivered + [d]);
    forall v | 0 <= v < |s'.workers|
      ensures WorkerRouted(s'.router, s'.asked, v, s'.workers[v])
    {
      assert WorkerRouted(s.router, s.asked, v, s.workers[v]);
      if v != w {
        DeliveryKeepsOthers(s.router, s'.router, s.asked, d, v, s.workers[v]);
      }
    }
    forall c | c in s'.router.ids
      ensures EntryRouted(s', c)
    {
      assert EntryRouted(s, c);
    }
  }

  /** Recording that `c` belongs to `w` leaves every other worker alone. */
  lemma EntryKeepsOthers(r: Router, r': Router, asked: map<CorrId, nat>, c: CorrId, w: nat, v: nat, wk: Worker)
    requires WorkerRouted(r, asked, v, wk)
    requires r'.ids == r.ids || (r'.ids == r.ids[c := w] && Owns(asked, c, w))
    requires r'.delivered == r.delivered && r'.phase == r.phase && v != w
    ensures WorkerRouted(r', asked, v, wk)
  {
  }

  lemma StepFromWorkerKeepsRouted(s: State, w: nat)
    requires Routed(s) && s.router.phase.Serving?
    requires w < |s.workers| && s.workers[w].outbox != []
    ensures Routed(StepFromWorker(s, w))
  {
    var s' := StepFromWorker(s, w);
    var wk := s.workers[w];
    assert WorkerRouted(s.router, s.asked, w, wk);
    forall v | 0 <= v < |s'.workers|
      ensures WorkerRouted(s'.router, s'.asked, v, s'.workers[v])
    {
      if v != w {
        EntryKeepsOthers(s.router, s'.router, s.asked, wk.outbox[0].msg.corrId, w, v, s.workers[v]);
      }
    }
    forall c | c in s'.router.ids
      ensures EntryRouted(s', c)
    {
      if c in s.router.ids {
        assert EntryRouted(s, c);
      }
    }
  }

  lemma StepAskKeepsRouted(s: State, w: nat, c: CorrId, content: Content)
    requires Routed(s) && w < |s.workers| && s.workers[w].phase.Applying?
    ensures Routed(StepAsk(s, w, c, content))
  {
    var s' := StepAsk(s, w, c, content);
    assert WorkerRouted(s.router, s.asked, w, s.workers[w]);
    forall b | b in s'.router.ids
      ensures EntryRouted(s', b)
    {
      assert EntryRouted(s, b);
    }
    forall v | 0 <= v < |s'.workers|
      ensures WorkerRouted(s'.router, s'.asked, v, s'.workers[v])
    {
      assert WorkerRouted(s.router, s.asked, v, s.workers[v]);
    }
  }

  /** The remaining steps of a worker leave router, inbox and pending request alone. */
  lemma PhaseChangeKeepsRouted(s: State, w: nat, wk: Worker, sent: seq<Parcel>)
    requires Routed(s) && w < |s.workers|
    requires s.workers[w].phase.Awaiting? ==> Closed(s.router.phase)
    requires !wk.phase.Awaiting?
    requires wk.inbox == s.workers[w].inbox && wk.stash == s.workers[w].stash
    requires wk.outbox == s.workers[w].outbox + sent
    requires sent != [] ==> !Closed(s.router.phase)
    requires forall p :: p in sent ==> p.msg.kind == ProcessResponse
    ensures Routed(s.(workers := s.workers[w := wk]))
  {
    var s' := s.(workers := s.workers[w := wk]);
    assert WorkerRouted(s.router, s.asked, w, s.workers[w]);
    forall v | 0 <= v < |s'.workers|
      ensures WorkerRouted(s'.router, s'.asked, v, s'.workers[v])
    {
      assert WorkerRouted(s.router, s.asked, v, s.workers[v]);
    }
    assert forall b :: b in s.router.ids ==> EntryRouted(s, b);
  }

  lemma ReceiveKeepsRouted(s: State, w: nat)
    requires Routed(s) && w < |s.workers| && s.workers[w].phase.Awaiting?
    ensures Routed(s.(workers := s.workers[w := ReceiveOne(s.workers[w])]))
  {
    var s' := s.(workers := s.workers[w := ReceiveOne(s.workers[w])]);
    assert WorkerRouted(s.router, s.asked, w, s.workers[w]);
    forall v | 0 <= v < |s'.workers|
      ensures WorkerRouted(s'.router, s'.asked, v, s'.workers[v])
    {
      assert WorkerRouted(s.router, s.asked, v, s.workers[v]);
    }
    assert forall b :: b in s.router.ids ==> EntryRouted(s, b);
  }

  /** Router changes that touch neither ids nor deliveries, and can only close. */
  lemma RouterChangeKeepsRouted(s: State, r: Router)
    requires Routed(s)
    requires r.ids == s.router.ids && r.delivered == s.router.delivered
    requires Closed(s.router.phase) ==> Closed(r.phase)
    ensures Routed(s.(router := r))
  {
    var s' := s.(router := r);
    forall v | 0 <= v < |s'.workers|
      ensures WorkerRouted(s'.router, s'.asked, v, s'.workers[v])
    {
      assert WorkerRouted(s.router, s.asked, v, s.workers[v]);
    }
    assert forall b :: b in s.router.ids ==> EntryRouted(s, b);
  }

  lemma FromValidatorKeepsRouted(s: State, m: Message, handoff: nat)
    requires Routed(s) && s.router.phase.Serving?
    ensures Routed(StepFromValidator(s, m, handoff))
  {
    var s' := StepFromValidator(s, m, handoff);
    if m.kind != ProcessRequest && m.kind != PingRequest && m.corrId in s.router.ids {
      RouteResponseKeepsRouted(s, m);
    } else {
      RouterChangeKeepsRouted(s, s'.router);
      if s'.workers != s.workers {
        PhaseChangeKeepsRouted(s.(router := s'.router), handoff, s'.workers[handoff], []);
      }
    }
  }

  lemma TakeKeepsRouted(s: State, w: nat)
    requires Routed(s) && w < |s.workers| && s.workers[w].phase.Idle?
    ensures Routed(StepTake(s, w))
  {
    var s' := StepTake(s, w);
    RouterChangeKeepsRouted(s, s'.router);
    if s'.workers != s.workers {
      PhaseChangeKeepsRouted(s.(router := s'.router), w, s'.workers[w], []);
    }
  }

  lemma AnswerKeepsRouted(s: State, w: nat, o: Outcome, marshals: bool)
    requires Routed(s) && w < |s.workers| && s.workers[w].phase.Applying?
    ensures Routed(s.(workers := s.workers[w := Respond(s.workers[w], o, marshals, Closed(s.router.phase))]))
  {
    var wk := Respond(s.workers[w], o, marshals, Closed(s.router.phase));
    PhaseChangeKeepsRouted(s, w, wk, wk.outbox[|s.workers[w].outbox|..]);
  }

  lemma SignalKeepsRouted(s: State, w: nat, done: nat)
    requires Routed(s) && w < |s.workers| && s.workers[w].phase.Exiting?
    ensures var p := s.workers[w].phase;
            Routed(s.(done := done, workers := s.workers[w := s.workers[w].(phase := Ended(p.lost, p.cause))]))
  {
    var p := s.workers[w].phase;
    var wk := s.workers[w].(phase := Ended(p.lost, p.cause));
    PhaseChangeKeepsRouted(s, w, wk, []);
    var s1 := s.(workers := s.workers[w := wk]);
    assert forall c :: c in s1.router.ids ==> EntryRouted(s1, c);
  }

  lemma CollectKeepsRouted(s: State)
    requires Routed(s) && s.router.phase.Draining?
    ensures Routed(StepCollect(s))
  {
    var s' := StepCollect(s);
    RouterChangeKeepsRouted(s, s'.router);
    var s1 := s.(router := s'.router);
    assert forall c :: c in s1.router.ids ==> EntryRouted(s1, c);
  }

  lemma NextKeepsRouted(s: State, step: Step)
    requires Routed(s)
    ensures Routed(Next(s, step))
  {
    match step
    case FromValidator(m, handoff) =>
      if s.router.phase.Serving? { FromValidatorKeepsRouted(s, m, handoff); }
    case FromWorker(w) =>
      if s.router.phase.Serving? && w < |s.workers| && s.workers[w].outbox != [] { StepFromWorkerKeepsRouted(s, w); }
    case Command(command) =>
      if s.router.phase.Serving? { RouterChangeKeepsRouted(s, RouteCommand(s.router, command)); }
    case Collect =>
      if s.router.phase.Draining? { CollectKeepsRouted(s); }
    case Connect(w, ok) =>
      if w < |s.workers| && s.workers[w].phase.Starting? {
        PhaseChangeKeepsRouted(s, w, Next(s, step).workers[w], []);
      }
    case Take(w) =>
      if w < |s.workers| && s.workers[w].phase.Idle? { TakeKeepsRouted(s, w); }
    case Ask(w, c, content) =>
      if w < |s.workers| && s.workers[w].phase.Applying? { StepAskKeepsRouted(s, w, c, content); }
    case Receive(w, fails) =>
      if w < |s.workers| && s.workers[w].phase.Awaiting? {
        if fails && Closed(s.router.phase) {
          PhaseChangeKeepsRouted(s, w, Next(s, step).workers[w], []);
        } else {
          ReceiveKeepsRouted(s, w);
        }
      }
    case Answer(w, o, marshals) =>
      if w < |s.workers| && s.workers[w].phase.Applying? { AnswerKeepsRouted(s, w, o, marshals); }
    case Signal(w) =>
      if w < |s.workers| && s.workers[w].phase.Exiting? { SignalKeepsRouted(s, w, s.done + 1); }
  }

  /** In every state of every run, routing is safe. */
  lemma {:induction false} RunsAreRouted(handlers: seq<Dispatch.Handler>, maxQueue: nat, threads: nat, steps: seq<Step>)
    ensures Routed(Run(Init(handlers, maxQueue, threads), steps))
    decreases |steps|
  {
    if steps != [] {
      RunsAreRouted(handlers, maxQueue, threads, steps[..|steps| - 1]);
      NextKeepsRouted(Run(Init(handlers, maxQueue, threads), steps[..|steps| - 1]), steps[|steps| - 1]);
    }
  }

  // ---- What routing safety means ----------------------------------------

  /** `ids` never has more entries than there are workers, and no worker ever
      has a message set aside. */
  lemma IdsAndStashesBounded(handlers: seq<Dispatch.Handler>, maxQueue: nat, threads: nat, steps: seq<Step>)
    ensures var s := Run(Init(handlers, maxQueue, threads), steps);
            && |s.router.ids| <= |s.workers|
            && forall w :: 0 <= w < |s.workers| ==> s.workers[w].stash == map[]
  {
    var s := Run(Init(handlers, maxQueue, threads), steps);
    RunsAreRouted(handlers, maxQueue, threads, steps);
    forall c | c in s.router.ids
      ensures s.router.ids[c] < |s.workers|
    {
      assert EntryRouted(s, c);
    }
    InjectiveMapBound(s.router.ids, |s.workers|);
    forall w | 0 <= w < |s.workers|
      ensures s.workers[w].stash == map[]
    {
      assert WorkerRouted(s.router, s.asked, w, s.workers[w]);
    }
  }

  /** The response to `c`, however often and in whatever order the validator
      sends it, is delivered at most once and only to the worker that sent `c`. */
  lemma ResponsesReachTheirWorkerOnce(handlers: seq<Dispatch.Handler>, maxQueue: nat, threads: nat,
                                      steps: seq<Step>, i: nat, j: nat)
    requires var r := Run(Init(handlers, maxQueue, threads), steps).router;
             i < |r.delivered| && j < |r.delivered| && r.delivered[i].msg.corrId == r.delivered[j].msg.corrId
    ensures var s := Run(Init(handlers, maxQueue, threads), steps);
            i == j && Owns(s.asked, s.router.delivered[i].msg.corrId, s.router.delivered[i].worker)
  {
    RunsAreRouted(handlers, maxQueue, threads, steps);
    var s := Run(Init(handlers, maxQueue, threads), steps);
    assert s.router.delivered[i] in s.router.delivered;
  }

  /** A context call that returns while the processor is serving returns the one
      message delivered for its own correlation id. */
  lemma CallReturnsItsResponse(handlers: seq<Dispatch.Handler>, maxQueue: nat, threads: nat, steps: seq<Step>, w: nat)
    requires var s := Run(Init(handlers, maxQueue, threads), steps);
             && w < |s.workers| && s.workers[w].phase.Awaiting?
             && !Next(s, Receive(w, false)).workers[w].phase.Awaiting?
    ensures var s := Run(Init(handlers, maxQueue, threads), steps);
            && |s.workers[w].inbox| == 1
            && s.workers[w].inbox[0].corrId == s.workers[w].phase.corrId
            && Delivery(w, s.workers[w].inbox[0]) in s.router.delivered
            && Next(s, Receive(w, false)).workers[w].inbox == []
  {
    RunsAreRouted(handlers, maxQueue, threads, steps);
    var s := Run(Init(handlers, maxQueue, threads), steps);
    assert WorkerRouted(s.router, s.asked, w, s.workers[w]);
  }

  /** Worker `w` is in a call with the id of `m`, whose request has been read and
      whose response is not there yet; `m` is a message that can be that response. */
  ghost predicate CanAnswer(s: State, w: nat, m: Message) {
    && s.router.phase.Serving? && w < |s.workers| && Awaits(s.workers[w], m.corrId)
    && s.workers[w].outbox == [] && s.workers[w].inbox == []
    && m.kind != ProcessRequest && m.kind != PingRequest
  }

  lemma ResponseGoesToCaller(s: State, w: nat, m: Message)
    requires Routed(s) && CanAnswer(s, w, m)
    ensures StepFromValidator(s, m, 0).workers == s.workers[w := s.workers[w].(inbox := [m])]
    ensures s.workers[w].stash == map[]
  {
    assert WorkerRouted(s.router, s.asked, w, s.workers[w]);
    assert EntryRouted(s, m.corrId);
    assert s.workers[w].inbox + [m] == [m];
  }

  /** No call is forgotten: once the router has read a worker's request, the first
      response to it goes to that worker, and the call then returns with it. */
  lemma AwaitedResponseIsDelivered(handlers: seq<Dispatch.Handler>, maxQueue: nat, threads: nat,
                                   steps: seq<Step>, w: nat, m: Message)
    requires CanAnswer(Run(Init(handlers, maxQueue, threads), steps), w, m)
    ensures var s := Run(Init(handlers, maxQueue, threads), steps);
            var s1 := Next(s, FromValidator(m, 0));
            && s1.workers == s.workers[w := s.workers[w].(inbox := [m])]
            && ReceiveOne(s1.workers[w]) == s.workers[w].(phase := Applying(s.workers[w].phase.req))
  {
    RunsAreRouted(handlers, maxQueue, threads, steps);
    ResponseGoesToCaller(Run(Init(handlers, maxQueue, threads), steps), w, m);
  }

  lemma DeliveryStep(s: State, step: Step)
    ensures var r, r' := s.router, Next(s, step).router;
            || r'.delivered == r.delivered
            || (step.FromValidator? && |r'.delivered| == |r.delivered| + 1
                && r'.delivered[..|r.delivered|] == r.delivered
                && r'.delivered[|r.delivered|].msg == step.msg)
  {
  }

  /** Every message delivered to a worker was sent by the validator, unchanged. */
  lemma {:induction false} DeliveredWasSent(handlers: seq<Dispatch.Handler>, maxQueue: nat, threads: nat,
                                            steps: seq<Step>, d: Delivery) returns (i: nat)
    requires d in Run(Init(handlers, maxQueue, threads), steps).router.delivered
    ensures i < |steps| && steps[i].FromValidator? && steps[i].msg == d.msg
    decreases |steps|
  {
    assert steps != [];
    var front := steps[..|steps| - 1];
    var before := Run(Init(handlers, maxQueue, threads), front);
    DeliveryStep(before, steps[|steps| - 1]);
    if d in before.router.delivered {
      i := DeliveredWasSent(handlers, maxQueue, threads, front, d);
    } else {
      i := |steps| - 1;
    }
  }
}
