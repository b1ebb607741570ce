/** Shutdown of the transaction processor ends: once queue and connection are closed,
    every schedule has boundedly many steps, whatever the handlers' own calls do, and
    where no further step is possible shutdown has returned. */
module ProcessorShutdown {
  import opened Common
  import opened Processor
  import opened ProcessorAccounting
  import Dispatch

  /** How many steps a worker is at most from its end, once the connection is closed. */
  ghost function Distance(wk: Worker, k: nat): nat {
    match wk.phase
    case Starting => 4
    case Idle => 3
    case Awaiting(_, _) => 3 + |wk.inbox|
    case Applying(_) => 2
    case Exiting(_, _) => 1
    case Ended(_, _) => 0
  }

  /** The same for the workers and shutdown's counting loop together. */
  ghost function Work(s: State): int {
    Sum(s.workers, Distance, 0)
    + match s.router.phase
      case Draining(n) => |s.workers| - n + 1
      case _ => 0
  }

  /** A step that brings worker `w` nearer to its end. */
  ghost function StepToEnd(s: State, w: nat): Step
    requires w < |s.workers|
  {
    match s.workers[w].phase
    case Starting => Connect(w, false)
    case Idle => Take(w)
    case Awaiting(_, _) => Receive(w, true)
    case Applying(_) => Answer(w, Unknown, true)
    case _ => Signal(w)
  }

  /** A step of one worker changes nothing or brings that worker nearer to its end. */
  lemma WorkerStepAdvances(s: State, step: Step)
    requires Closed(s.router.phase)
    requires step.Connect? || step.Take? || step.Receive? || step.Answer? || step.Signal?
    ensures var s' := Next(s, step);
            || s' == s
            || (step.w < |s.workers| == |s'.workers| && s'.workers == s.workers[step.w := s'.workers[step.w]]
                && s'.router.phase == s.router.phase
                && Distance(s'.workers[step.w], 0) < Distance(s.workers[step.w], 0))
  {
  }

  /** Once closed, every step other than a handler's own call changes nothing or
      lowers the work that is left; such a call leaves it as it is. */
  lemma StepLowersWork(s: State, step: Step)
    requires Signalled(s) && Closed(s.router.phase)
    ensures var s' := Next(s, step);
            && Signalled(s') && Closed(s'.router.phase) && |s'.workers| == |s.workers| && Work(s') >= 0
            && if step.Ask? then Work(s') == Work(s) else s' == s || Work(s') < Work(s)
  {
    var s' := Next(s, step);
    NextKeepsSignals(s, step);
    ClosedStep(s, step);
    SumBound(s'.workers, HasEnded, 0);
    match step
    case FromValidator(_, _) =>
    case FromWorker(_) =>
    case Command(_) =>
    case Ask(_, _, _) => AskKeepsWork(s, step);
    case Collect => assert s'.workers == s.workers;
    case _ => WorkerStepLowersWork(s, step);
  }

  lemma WorkerStepLowersWork(s: State, step: Step)
    requires Closed(s.router.phase)
    requires step.Connect? || step.Take? || step.Receive? || step.Answer? || step.Signal?
    ensures Next(s, step) == s || Work(Next(s, step)) < Work(s)
  {
    WorkerStepAdvances(s, step);
    var s' := Next(s, step);
    if s' != s {
      SumUpdate(s.workers, step.w, s'.workers[step.w], Distance, 0);
    }
  }

  lemma AskKeepsWork(s: State, step: Step)
    requires Closed(s.router.phase) && step.Ask?
    ensures Next(s, step).workers == s.workers && Next(s, step).router == s.router
  {
  }

  /** The steps of a schedule that do something, a handler's own calls apart. */
  ghost function Effective(s: State, steps: seq<Step>): nat {
    if steps == [] then 0
    else
      var before, step := Run(s, steps[..|steps| - 1]), steps[|steps| - 1];
      Effective(s, steps[..|steps| - 1]) + if !step.Ask? && Next(before, step) != before then 1 else 0
  }

  lemma {:induction false} EffectiveStepsBounded(s: State, steps: seq<Step>)
    requires Signalled(s) && Closed(s.router.phase)
    ensures var s' := Run(s, steps);
            && Signalled(s') && Closed(s'.router.phase) && |s'.workers| == |s.workers|
            && 0 <= Work(s') && Effective(s, steps) + Work(s') <= Work(s)
    decreases |steps|
  {
    if steps == [] {
      SumBound(s.workers, HasEnded, 0);
    } else {
      EffectiveStepsBounded(s, steps[..|steps| - 1]);
      StepLowersWork(Run(s, steps[..|steps| - 1]), steps[|steps| - 1]);
    }
  }

  /** No step other than a handler's own call does anything. */
  ghost predicate Quiescent(s: State) {
    forall step: Step :: !step.Ask? ==> Next(s, step) == s
  }

  lemma QuiescentHasReturned(s: State)
    requires Signalled(s) && Closed(s.router.phase) && Quiescent(s)
    ensures s.router.phase.Returned?
  {
    if s.router.phase.Draining? {
      if w :| 0 <= w < |s.workers| && !s.workers[w].phase.Ended? {
        StepToEndAdvances(s, w);
      } else {
        CollectAdvances(s);
      }
    }
  }

  lemma CollectAdvances(s: State)
    requires Signalled(s) && s.router.phase.Draining?
    requires forall w :: 0 <= w < |s.workers| ==> s.workers[w].phase.Ended?
    ensures Next(s, Collect) != s
  {
    SumBound(s.workers, HasEnded, 0);
    assert forall w :: 0 <= w < |s.workers| ==> HasEnded(s.workers[w], 0) == 1;
  }

  lemma StepToEndAdvances(s: State, w: nat)
    requires Signalled(s) && s.router.phase.Draining? && w < |s.workers| && !s.workers[w].phase.Ended?
    ensures !StepToEnd(s, w).Ask? && Next(s, StepToEnd(s, w)) != s
  {
    var s' := Next(s, StepToEnd(s, w));
    SumBound(s.workers, HasEnded, 0);
    assert HasEnded(s.workers[w], 0) != 1;
    assert s'.workers[w].phase != s.workers[w].phase;
  }

  /** From a closed state a schedule that takes any step that does something returns. */
  lemma {:induction false} DrainingCanReturn(s: State) returns (steps: seq<Step>)
    requires Signalled(s) && Closed(s.router.phase)
    ensures Run(s, steps).router.phase.Returned?
    decreases Work(s)
  {
    if Quiescent(s) {
      QuiescentHasReturned(s);
      steps := [];
    } else {
      var step: Step :| !step.Ask? && Next(s, step) != s;
      StepLowersWork(s, step);
      var rest := DrainingCanReturn(Next(s, step));
      steps := [step] + rest;
      RunCons(s, step, rest);
    }
  }

  /** Whatever has happened before, a shutdown that is waiting can still return. */
  lemma ShutdownIsNeverStuck(handlers: seq<Dispatch.Handler>, maxQueue: nat, threads: nat, steps: seq<Step>)
    returns (more: seq<Step>)
    requires Run(Init(handlers, maxQueue, threads), steps).router.phase.Draining?
    ensures Run(Init(handlers, maxQueue, threads), steps + more).router.phase.Returned?
  {
    RunsAreSignalled(handlers, maxQueue, threads, steps);
    more := DrainingCanReturn(Run(Init(handlers, maxQueue, threads), steps));
    RunAppend(Init(handlers, maxQueue, threads), steps, more);
  }

  /** Once shutdown has begun, every schedule has only boundedly many steps that do
      something, and one that cannot go on has returned. */
  lemma ShutdownAlwaysReturns(
    handlers: seq<Dispatch.Handler>, maxQueue: nat, threads: nat, steps: seq<Step>, more: seq<Step>)
    requires Closed(Run(Init(handlers, maxQueue, threads), steps).router.phase)
    ensures var s := Run(Init(handlers, maxQueue, threads), steps);
            && Effective(s, more) <= Work(s)
            && (Quiescent(Run(s, more)) ==> Run(s, more).router.phase.Returned?)
  {
    RunsAreSignalled(handlers, maxQueue, threads, steps);
    var s := Run(Init(handlers, maxQueue, threads), steps);
    EffectiveStepsBounded(s, more);
    if Quiescent(Run(s, more)) {
      QuiescentHasReturned(Run(s, more));
    }
  }

  // ---- Requests taken after the close ---------------------------------------

  ghost function MayTake(wk: Worker, k: nat): nat {
    if wk.phase.Starting? || wk.phase.Idle? then 1 else 0
  }

  lemma WorkerStepTakes(s: State, step: Step)
    requires Closed(s.router.phase) && |s.workers| == |Next(s, step).workers|
    requires step.Connect? || step.Take? || step.Receive? || step.Answer? || step.Signal? || step.Ask?
    requires step.w < |s.workers|
    ensures var s' := Next(s, step);
            && s'.workers == s.workers[step.w := s'.workers[step.w]]
            && |s.router.queue| + MayTake(s'.workers[step.w], 0) <= |s'.router.queue| + MayTake(s.workers[step.w], 0)
  {
  }

  lemma StepTakes(s: State, step: Step)
    requires Closed(s.router.phase)
    ensures var s' := Next(s, step);
            |s.router.queue| + Sum(s'.workers, MayTake, 0) <= |s'.router.queue| + Sum(s.workers, MayTake, 0)
  {
    var s' := Next(s, step);
    match step
    case FromValidator(_, _) =>
    case FromWorker(_) =>
    case Command(_) =>
    case Collect => assert s'.workers == s.workers;
    case _ =>
      if step.w < |s.workers| {
        WorkerStepTakes(s, step);
        SumUpdate(s.workers, step.w, s'.workers[step.w], MayTake, 0);
      } else {
        assert s' == s;
      }
  }

  /** After the close every worker takes at most one more request: over any schedule
      the queue gets shorter by at most the number of workers not busy at the time. */
  lemma {:induction false} FewTakenAfterClose(s: State, steps: seq<Step>)
    requires Closed(s.router.phase)
    ensures Closed(Run(s, steps).router.phase)
    ensures |s.router.queue| + Sum(Run(s, steps).workers, MayTake, 0)
            <= |Run(s, steps).router.queue| + Sum(s.workers, MayTake, 0)
    decreases |steps|
  {
    if steps != [] {
      FewTakenAfterClose(s, steps[..|steps| - 1]);
      StepTakes(Run(s, steps[..|steps| - 1]), steps[|steps| - 1]);
      ClosedStep(Run(s, steps[..|steps| - 1]), steps[|steps| - 1]);
    }
  }
}
