/** The devmode consensus engine as a state machine against a validator that
    obeys the block-building contract of consensus/iface.go
    (examples/devmode_consensus/engine.go). */
module Devmode {
  import opened Common
  import opened BlockIds
  import ForkChoice

  // ---- Consensus payloads --------------------------------------------------

  const DEVMODE: seq<Byte> := [68, 101, 118, 109, 111, 100, 101]  // "Devmode"

  function CreateConsensus(summary: seq<Byte>): (payload: seq<Byte>) {
    DEVMODE + summary
  }

  predicate CheckConsensus(payload: seq<Byte>, summary: seq<Byte>) {
    payload == CreateConsensus(summary)
  }

  /** A payload made for one summary is accepted with that summary and no other. */
  lemma PayloadFitsOneSummary(summary: seq<Byte>, other: seq<Byte>)
    ensures CheckConsensus(CreateConsensus(summary), other) <==> other == summary
  {
    assert CreateConsensus(summary)[|DEVMODE|..] == summary;
    assert CreateConsensus(other)[|DEVMODE|..] == other;
  }

  // ---- The validator's side ------------------------------------------------

  datatype Building = NoBlock | Open | Summarized(summary: seq<Byte>)

  /** A block the validator has signed and published. */
  datatype Published = Published(id: seq<Byte>, payload: seq<Byte>, summary: seq<Byte>)

  datatype Validator = Validator(building: Building, published: seq<Published>)

  /** Fault is any error other than the two the contract speaks of, for example a
      broken connection, or a reply of the wrong type or that does not decode. */
  datatype Reply = Done | NotReady | InvalidState | Fault

  /** What becomes of a call: answered; failed before the validator served it; or
      served, with its effect, and the reply lost. */
  datatype Fate = Answered | NotServed | ReplyLost

  /** The validator afterwards and what the engine sees, if serving gives `served`. */
  function Met(fate: Fate, before: Validator, served: (Validator, Reply)): (r: (Validator, Reply)) {
    match fate
    case Answered => served
    case NotServed => (before, Fault)
    case ReplyLost => (served.0, Fault)
  }

  function Initialize(v: Validator, fate: Fate): (r: (Validator, Reply)) {
    Met(fate, v, if v.building.NoBlock? then (v.(building := Open), Done) else (v, InvalidState))
  }

  /** A summary is fixed the first time it is given: no batch is added after it. */
  function Summarize(v: Validator, ready: bool, fate: Fate, summary: seq<Byte>): (r: (Validator, Reply)) {
    if v.building.Open? && !ready then (v, NotReady)
    else
      Met(fate, v, match v.building
                   case NoBlock => (v, InvalidState)
                   case Open => (v.(building := Summarized(summary)), Done)
                   case Summarized(_) => (v, Done))
  }

  function Finalize(v: Validator, ready: bool, fate: Fate, data: seq<Byte>, id: seq<Byte>): (r: (Validator, Reply)) {
    if v.building.Summarized? && !ready then (v, NotReady)
    else
      Met(fate, v, match v.building
                   case Summarized(summary) =>
                     (Validator(NoBlock, v.published + [Published(id, data, summary)]), Done)
                   case _ => (v, InvalidState))
  }

  function Cancel(v: Validator, fate: Fate): (r: (Validator, Reply)) {
    Met(fate, v, if v.building.NoBlock? then (v, InvalidState) else (v.(building := NoBlock), Done))
  }

  // ---- The engine's side ---------------------------------------------------

  datatype Where = InInitialize | InCancel | InGetBlock | InPeerMessage | InBroadcast

  datatype Status = Running | Stopped | Panicked(where: Where)

  /** What the engine tells the validator about a block, for itself or for peers. */
  datatype Directive =
    | Check(id: BlockId)
    | Fail(id: BlockId)
    | Commit(id: BlockId)
    | Ignore(id: BlockId)
    | Broadcast(id: BlockId)                            // "published", to all peers
    | SendReceived(signer: seq<Byte>, id: BlockId)
    | SendAck(peer: seq<Byte>, id: BlockId)

  /** `closed` says that the update channel is closed and has been read empty. */
  datatype State = State(
    status: Status,
    publishedAtHeight: bool,
    closed: bool,
    validator: Validator,
    directives: seq<Directive>)

  /** What one publication meets with: the summary and id the validator gives to the
      block, and the fates of the three calls. */
  datatype Answers = Answers(summary: seq<Byte>, id: seq<Byte>, summarize: Fate, finalize: Fate, broadcast: Fate)

  datatype Event =
    | Timer(expired: bool, answers: Answers)
    | BlockNew(block: Block)
    | BlockValid(found: Option<Block>, decision: ForkChoice.Decision)  // the fork choice is a module of its own
    | BlockCommit(cancel: Fate, initialize: Fate)
    | PeerMessage(messageType: string, content: seq<Byte>, sender: seq<Byte>)
    | Shutdown(byPointer: bool)
    | OtherUpdate
    | ChannelClosed       // the last update has been received from the closed channel
    | NilReceive          // a receive from the closed channel

  /** initializeBlock: any error is a panic. */
  function InitializeOrPanic(s: State, fate: Fate): (s': State) {
    var (v, r) := Initialize(s.validator, fate);
    s.(validator := v, status := if r.Done? then s.status else Panicked(InInitialize))
  }

  /** finalizeBlock once the validator stops answering "not ready"; a failed
      summary is used as an empty one, and a failed finalize gives the null id. */
  function Finalized(v: Validator, a: Answers): (r: (Validator, BlockId)) {
    var (v1, r1) := Summarize(v, true, a.summarize, a.summary);
    var data := CreateConsensus(if r1.Done? && v1.building.Summarized? then v1.building.summary else []);
    var (v2, r2) := Finalize(v1, true, a.finalize, data, a.id);
    (v2, if r2.Done? then FromBytes(a.id) else NULL_ID)
  }

  function Start(v: Validator, fate: Fate): (s: State) {
    InitializeOrPanic(State(Running, false, false, v, []), fate)
  }

  function Tell(s: State, d: Directive): (s': State) {
    s.(directives := s.directives + [d])
  }

  /** The body of the timer case: the block is taken for published whatever
      finalizeBlock got, and then announced; an error in that is a panic. */
  function Publish(s: State, a: Answers): (s': State) {
    var (v, id) := Finalized(s.validator, a);
    var s1 := s.(validator := v, publishedAtHeight := true);
    var s2 := if a.broadcast.NotServed? then s1 else Tell(s1, Broadcast(id));
    if a.broadcast.Answered? then s2 else s2.(status := Panicked(InBroadcast))
  }

  /** The end of HandleBlockValid. */
  function Decide(s: State, id: BlockId, decision: ForkChoice.Decision): (s': State) {
    match decision
    case Commit => Tell(s, Directive.Commit(id))
    case Ignore => Tell(s, Directive.Ignore(id))
    case Panic => s.(status := Panicked(InGetBlock))
  }

  /** One turn of the loop in Start.  A closed channel is ready at every turn, with nil,
      which no case of the type switch matches; a turn can still take the timer case, if
      it is held up until the timer made in that turn has run out as well. */
  function Next(s: State, e: Event): (s': State) {
    if !s.status.Running? || (s.closed && !e.Timer?) then s
    else
      match e
      case Timer(expired, answers) => if !s.publishedAtHeight && expired then Publish(s, answers) else s
      case BlockNew(block) =>
        if block.previousId == NULL_ID then s
        else if CheckConsensus(block.payload, block.summary) then Tell(s, Check(block.blockId))
        else Tell(s, Fail(block.blockId))
      case BlockValid(found, decision) =>
        if found.None? then s.(status := Panicked(InGetBlock))
        else Decide(Tell(s, SendReceived(found.value.signerId, found.value.blockId)), found.value.blockId, decision)
      case BlockCommit(cancel, initialize) =>
        var (v, r) := Cancel(s.validator, cancel);
        if !r.Done? && !r.InvalidState? then s.(validator := v, status := Panicked(InCancel))
        else InitializeOrPanic(s.(validator := v, publishedAtHeight := false), initialize)
      case PeerMessage(t, content, sender) =>
        if t == "received" then Tell(s, SendAck(sender, FromBytes(content)))
        else if t == "published" || t == "ack" then s
        else s.(status := Panicked(InPeerMessage))
      case Shutdown(byPointer) => if byPointer then s else s.(status := Stopped)
      case ChannelClosed => s.(closed := true)
      case OtherUpdate => s
      case NilReceive => s
  }

  function Run(s: State, events: seq<Event>): (s': State)
    decreases |events|
  {
    if events == [] then s else Next(Run(s, events[..|events| - 1]), events[|events| - 1])
  }

  // ---- What every run keeps ------------------------------------------------

  ghost predicate InStep(s: State) {
    && (!s.publishedAtHeight <==> s.validator.building == Open)
    && (s.publishedAtHeight <==> s.validator.building == NoBlock)
    && s.status != Panicked(InInitialize) && s.status != Panicked(InCancel)
  }

  ghost predicate AllAccepted(v: Validator) {
    forall p :: p in v.published ==> CheckConsensus(p.payload, p.summary)
  }

  /** The validator serves both calls of a publication, so that a block that is open
      gets finalized. */
  ghost predicate Finalizes(a: Answers) {
    !a.summarize.NotServed? && !a.finalize.NotServed?
  }

  /** The summary the engine puts into the block: none if it did not get it. */
  ghost function Carried(a: Answers): seq<Byte> {
    if a.summarize.Answered? then a.summary else []
  }

  /** The block is finalized with another summary than its own in the payload. */
  ghost predicate Spoils(a: Answers) {
    Finalizes(a) && Carried(a) != a.summary
  }

  /** The validator serves the calls the event brings. */
  ghost predicate Obeys(e: Event) {
    && (e.Timer? ==> Finalizes(e.answers))
    && (e.BlockCommit? ==> e.cancel.Answered? && e.initialize.Answered?)
  }

  ghost predicate AllObey(events: seq<Event>) {
    forall e :: e in events ==> Obeys(e)
  }

  ghost predicate NoCommit(events: seq<Event>) {
    forall e :: e in events ==> !e.BlockCommit?
  }

  /** The half of InStep that survives faults: the engine only tries to publish a
      block that is open. */
  ghost predicate ReadyToPublish(s: State) {
    s.status.Running? && !s.publishedAtHeight ==> s.validator.building == Open
  }

  /** Against an obedient validator every run keeps the engine in step with it. */
  lemma {:induction false} RunsStayInStep(v: Validator, fate: Fate, events: seq<Event>)
    requires v.building == NoBlock && fate.Answered? && AllObey(events)
    ensures InStep(Run(Start(v, fate), events))
    decreases |events|
  {
    if events != [] {
      RunsStayInStep(v, fate, events[..|events| - 1]);
      assert Obeys(events[|events| - 1]);
    }
  }

  /** Against an obedient validator, a run panics in initialize exactly when the first
      call fails, in particular because a block was already under construction at the
      start, and never in cancel. */
  lemma PanicsIffBlockInProgress(v: Validator, fate: Fate, events: seq<Event>)
    requires AllObey(events)
    ensures Run(Start(v, fate), events).status == Panicked(InInitialize)
            <==> v.building != NoBlock || !fate.Answered?
    ensures Run(Start(v, fate), events).status != Panicked(InCancel)
  {
    if v.building == NoBlock && fate.Answered? {
      RunsStayInStep(v, fate, events);
    } else {
      PanicIsFinal(Start(v, fate), events);
    }
  }

  lemma {:induction false} PanicIsFinal(s: State, events: seq<Event>)
    requires !s.status.Running?
    ensures Run(s, events) == s
    decreases |events|
  {
    if events != [] {
      PanicIsFinal(s, events[..|events| - 1]);
    }
  }

  /** The engine tries to publish. */
  ghost predicate Attempts(s: State, e: Event) {
    s.status.Running? && !s.publishedAtHeight && e.Timer? && e.expired
  }

  /** A timer event brings the engine out of step exactly when it tries to publish and
      one of the two calls is not served: it then takes the block for published although
      it is still under construction. */
  lemma OutOfStepIffPublishFails(s: State, e: Event)
    requires InStep(s) && s.status.Running? && e.Timer?
    ensures !InStep(Next(s, e)) <==> Attempts(s, e) && !Finalizes(e.answers)
  {
  }

  /** The first time the timer expired since the last commit notification, of which
      there are none after the close of the channel. */
  ghost function FirstExpiry(events: seq<Event>): (a: Option<Answers>) {
    if events == [] then None
    else
      var front, e := events[..|events| - 1], events[|events| - 1];
      if e.BlockCommit? && ChannelClosed !in front then None
      else if FirstExpiry(front).None? && e.Timer? && e.expired then Some(e.answers)
      else FirstExpiry(front)
  }

  /** Over whole runs, whatever calls fail: while the engine runs, it has tried to
      publish exactly if the timer expired since the last commit, and it is in step
      exactly if the validator served the first such publication. */
  lemma {:induction false} InStepIff(v: Validator, fate: Fate, events: seq<Event>)
    requires Run(Start(v, fate), events).status.Running?
    ensures var s, first := Run(Start(v, fate), events), FirstExpiry(events);
            && (s.closed <==> ChannelClosed in events)
            && (s.publishedAtHeight <==> first.Some?)
            && (InStep(s) <==> first.None? || Finalizes(first.value))
            && (!s.publishedAtHeight ==> s.validator.building == Open)
    decreases |events|
  {
    if events != [] {
      InStepIff(v, fate, events[..|events| - 1]);
    }
  }

  /** A commit notification leaves the engine running exactly if both of its calls are
      answered, and then in step, whatever the state before. */
  lemma CommitRestoresStep(s: State, cancel: Fate, initialize: Fate)
    requires s.status.Running? && !s.closed
    ensures var s' := Next(s, BlockCommit(cancel, initialize));
            && (s'.status.Running? <==> cancel.Answered? && initialize.Answered?)
            && (s'.status.Running? ==> InStep(s'))
  {
  }

  /** Blocks published from `s` on, while no commit is notified. */
  lemma {:induction false} PublishedWithoutCommit(s: State, events: seq<Event>)
    requires NoCommit(events)
    ensures var s' := Run(s, events);
            && (s.publishedAtHeight ==> s'.publishedAtHeight)
            && |s'.validator.published| <= |s.validator.published|
                 + (if s'.publishedAtHeight && !s.publishedAtHeight then 1 else 0)
    decreases |events|
  {
    if events != [] {
      PublishedWithoutCommit(s, events[..|events| - 1]);
    }
  }

  lemma CommitsStep(s: State, e: Event)
    ensures var before, after := |s.validator.published|, |Next(s, e).validator.published|;
            after + (if Next(s, e).publishedAtHeight then 0 else 1)
            <= before + (if s.publishedAtHeight then 0 else 1) + (if e.BlockCommit? then 1 else 0)
  {
  }

  /** Over a whole run at most one block more is finalized than there were commit
      notifications. */
  lemma {:induction false} OneMoreThanCommits(v: Validator, fate: Fate, events: seq<Event>)
    ensures var s := Run(Start(v, fate), events);
            |s.validator.published| + (if s.publishedAtHeight then 0 else 1) <= |v.published| + Commits(events) + 1
    decreases |events|
  {
    if events != [] {
      var n := |events| - 1;
      OneMoreThanCommits(v, fate, events[..n]);
      CommitsStep(Run(Start(v, fate), events[..n]), events[n]);
    }
  }

  /** Between two consecutive commit notifications at most one block is
      finalized, whatever the validator answers; over a whole run at most one
      more than there were notifications. */
  lemma OneBlockBetweenCommits(v: Validator, fate: Fate, before: seq<Event>, between: seq<Event>)
    requires NoCommit(between)
    ensures var s := Run(Start(v, fate), before);
            && |Run(s, between).validator.published| <= |s.validator.published| + 1
            && |s.validator.published| <= |v.published| + Commits(before) + 1
  {
    PublishedWithoutCommit(Run(Start(v, fate), before), between);
    OneMoreThanCommits(v, fate, before);
  }

  ghost function Commits(events: seq<Event>): nat {
    if events == [] then 0
    else Commits(events[..|events| - 1]) + if events[|events| - 1].BlockCommit? then 1 else 0
  }

  /** A publication with all calls answered: the block carries the prefix and the summary
      the validator gave, that is the block published, and its id is announced. */
  lemma FinalizedBlockCarriesSummary(s: State, a: Answers)
    requires InStep(s) && Attempts(s, Timer(true, a))
    requires a.summarize.Answered? && a.finalize.Answered? && a.broadcast.Answered?
    ensures var s' := Next(s, Timer(true, a));
            && s'.validator.published == s.validator.published + [Published(a.id, DEVMODE + a.summary, a.summary)]
            && s'.directives == s.directives + [Broadcast(FromBytes(a.id))]
  {
  }

  // ---- Which published blocks are accepted ---------------------------------------

  lemma {:induction false} RunsStayReady(v: Validator, fate: Fate, events: seq<Event>)
    ensures ReadyToPublish(Run(Start(v, fate), events))
    decreases |events|
  {
    if events != [] {
      RunsStayReady(v, fate, events[..|events| - 1]);
    }
  }

  /** What an attempt publishes, if it does. */
  ghost function NewBlock(a: Answers): Published {
    Published(a.id, DEVMODE + Carried(a), a.summary)
  }

  lemma PublishedStep(s: State, e: Event)
    requires ReadyToPublish(s)
    ensures Next(s, e).validator.published
         == s.validator.published + if Attempts(s, e) && Finalizes(e.answers) then [NewBlock(e.answers)] else []
  {
  }

  ghost predicate AttemptsWith(s: State, e: Event, kind: Answers -> bool) {
    Attempts(s, e) && kind(e.answers)
  }

  /** In `events` some attempt meets with answers of this kind. */
  ghost predicate SomeAttempt(s: State, events: seq<Event>, kind: Answers -> bool) {
    exists i :: 0 <= i < |events| && AttemptsWith(Run(s, events[..i]), events[i], kind)
  }

  lemma SomeAttemptSnoc(s: State, events: seq<Event>, kind: Answers -> bool)
    requires events != []
    ensures var front, e := events[..|events| - 1], events[|events| - 1];
            SomeAttempt(s, events, kind) <==> SomeAttempt(s, front, kind) || AttemptsWith(Run(s, front), e, kind)
  {
    var n := |events| - 1;
    var front := events[..n];
    assert forall i :: 0 <= i < n ==> front[..i] == events[..i] && front[i] == events[i];
    if SomeAttempt(s, front, kind) {
      var i :| 0 <= i < |front| && AttemptsWith(Run(s, front[..i]), front[i], kind);
      assert AttemptsWith(Run(s, events[..i]), events[i], kind);
    }
  }

  lemma AcceptedStep(s: State, e: Event)
    requires ReadyToPublish(s)
    ensures AllAccepted(Next(s, e).validator)
            <==> AllAccepted(s.validator) && !(Attempts(s, e) && Spoils(e.answers))
  {
    PublishedStep(s, e);
    if Attempts(s, e) {
      PayloadFitsOneSummary(Carried(e.answers), e.answers.summary);
      var ps, p := s.validator.published, NewBlock(e.answers);
      assert p in ps + [p] && forall q :: q in ps ==> q in ps + [p];
    }
  }

  /** In every run all published blocks pass the consensus check exactly if those there
      before did and no publication lost the reply with a non-empty summary and was
      finalized all the same. */
  lemma {:induction false} RunsPublishAcceptedIff(v: Validator, fate: Fate, events: seq<Event>)
    ensures AllAccepted(Run(Start(v, fate), events).validator)
            <==> AllAccepted(v) && !SomeAttempt(Start(v, fate), events, Spoils)
    decreases |events|
  {
    if events != [] {
      var n := |events| - 1;
      RunsPublishAcceptedIff(v, fate, events[..n]);
      RunsStayReady(v, fate, events[..n]);
      AcceptedStep(Run(Start(v, fate), events[..n]), events[n]);
      SomeAttemptSnoc(Start(v, fate), events, Spoils);
    }
  }

  /** Every block published in a run comes from one attempt of it, served by the
      validator: it has the summary given there, and the one that got through to the
      engine in its payload. */
  lemma {:induction false} PublishedByAttempt(v: Validator, fate: Fate, events: seq<Event>, k: nat) returns (i: nat)
    requires |v.published| <= k < |Run(Start(v, fate), events).validator.published|
    ensures i < |events| && Attempts(Run(Start(v, fate), events[..i]), events[i]) && Finalizes(events[i].answers)
    ensures Run(Start(v, fate), events).validator.published[k] == NewBlock(events[i].answers)
    decreases |events|
  {
    var n := |events| - 1;
    var front := events[..n];
    RunsStayReady(v, fate, front);
    PublishedStep(Run(Start(v, fate), front), events[n]);
    if k < |Run(Start(v, fate), front).validator.published| {
      i := PublishedByAttempt(v, fate, front, k);
      assert front[..i] == events[..i] && front[i] == events[i];
    } else {
      i := n;
    }
  }

  /** A peer that receives a published block with its own summary checks it, unless that
      block was spoiled, which every peer fails; with any other summary the payload
      passes only if that is the one the engine got. */
  lemma PublishedBlocksAreAcceptedIff(
    v: Validator, fate: Fate, events: seq<Event>, k: nat, peer: State, received: Block) returns (i: nat)
    requires |v.published| <= k < |Run(Start(v, fate), events).validator.published|
    requires peer.status.Running? && !peer.closed && received.previousId != NULL_ID
    requires received.payload == Run(Start(v, fate), events).validator.published[k].payload
    ensures i < |events| && Attempts(Run(Start(v, fate), events[..i]), events[i])
    ensures var p, a := Run(Start(v, fate), events).validator.published[k], events[i].answers;
            var verdict := if received.summary == Carried(a) then Check(received.blockId) else Fail(received.blockId);
            && Next(peer, BlockNew(received)).directives == peer.directives + [verdict]
            && (received.summary == p.summary ==> (verdict.Fail? <==> Spoils(a)))
  {
    i := PublishedByAttempt(v, fate, events, k);
    PayloadFitsOneSummary(Carried(events[i].answers), received.summary);
  }

  /** The summary is given and its reply lost: the block is published with an empty
      summary in its payload, the engine stays in step, and every peer fails the block. */
  lemma LostSummaryIsRejected(s: State, summary: seq<Byte>, id: seq<Byte>, peer: State, received: Block)
    requires InStep(s) && s.status.Running? && !s.publishedAtHeight && summary != []
    requires peer.status.Running? && !peer.closed && received.previousId != NULL_ID
    requires received.payload == DEVMODE && received.summary == summary
    ensures var s' := Next(s, Timer(true, Answers(summary, id, ReplyLost, Answered, Answered)));
            && s'.validator.published == s.validator.published + [Published(id, DEVMODE, summary)] && InStep(s')
            && Next(peer, BlockNew(received)).directives == peer.directives + [Fail(received.blockId)]
  {
    assert DEVMODE + [] == DEVMODE;
    PayloadFitsOneSummary([], summary);
  }

  /** The block is finalized and the reply lost: the block is published and in order, the
      engine in step, and the null id announced. */
  lemma LostFinalizeAnnouncesNull(s: State, summary: seq<Byte>, id: seq<Byte>)
    requires InStep(s) && s.status.Running? && !s.publishedAtHeight
    ensures var s' := Next(s, Timer(true, Answers(summary, id, Answered, ReplyLost, Answered)));
            && s'.validator.published == s.validator.published + [Published(id, DEVMODE + summary, summary)]
            && InStep(s') && s'.directives == s.directives + [Broadcast(NULL_ID)]
  {
  }

  // ---- What is announced to the peers -----------------------------------------

  ghost function NonNull(id: BlockId): seq<BlockId> {
    if id != NULL_ID then [id] else []
  }

  /** The ids announced, without the null id. */
  ghost function Announced(ds: seq<Directive>): seq<BlockId> {
    if ds == [] then []
    else
      var d := ds[|ds| - 1];
      Announced(ds[..|ds| - 1]) + if d.Broadcast? then NonNull(d.id) else []
  }

  ghost function PublishedIds(ps: seq<Published>): seq<BlockId> {
    if ps == [] then [] else PublishedIds(ps[..|ps| - 1]) + NonNull(FromBytes(ps[|ps| - 1].id))
  }

  lemma TellAnnounces(s: State, d: Directive)
    ensures Announced(Tell(s, d).directives) == Announced(s.directives) + if d.Broadcast? then NonNull(d.id) else []
    ensures !d.Broadcast? ==> Announced(Tell(s, d).directives) == Announced(s.directives)
  {
    assert Tell(s, d).directives[..|s.directives|] == s.directives;
  }

  lemma OnlyPublishingAnnounces(s: State, e: Event)
    requires !Attempts(s, e)
    ensures Announced(Next(s, e).directives) == Announced(s.directives)
  {
    match e
    case BlockNew(b) =>
      TellAnnounces(s, Check(b.blockId));
      TellAnnounces(s, Fail(b.blockId));
    case BlockValid(found, decision) =>
      if found.Some? {
        var received := SendReceived(found.value.signerId, found.value.blockId);
        TellAnnounces(s, received);
        DecideAnnounces(Tell(s, received), found.value.blockId, decision);
      }
    case PeerMessage(_, content, sender) => TellAnnounces(s, SendAck(sender, FromBytes(content)));
    case _ => assert Next(s, e).directives == s.directives;
  }

  lemma DecideAnnounces(s: State, id: BlockId, decision: ForkChoice.Decision)
    ensures Announced(Decide(s, id, decision).directives) == Announced(s.directives)
    ensures Decide(s, id, decision).validator == s.validator
  {
    TellAnnounces(s, Directive.Commit(id));
    TellAnnounces(s, Directive.Ignore(id));
  }

  /** The id an attempt announces: that of the block if the engine got it. */
  ghost function AnnouncedId(a: Answers): BlockId {
    if Finalizes(a) && a.finalize.Answered? then FromBytes(a.id) else NULL_ID
  }

  ghost function NewlyAnnounced(s: State, e: Event): seq<BlockId> {
    if Attempts(s, e) && !e.answers.broadcast.NotServed? then NonNull(AnnouncedId(e.answers)) else []
  }

  lemma AnnouncedStep(s: State, e: Event)
    requires ReadyToPublish(s)
    ensures Announced(Next(s, e).directives) == Announced(s.directives) + NewlyAnnounced(s, e)
  {
    if Attempts(s, e) {
      var (v, id) := Finalized(s.validator, e.answers);
      assert id == AnnouncedId(e.answers);
      TellAnnounces(s.(validator := v, publishedAtHeight := true), Broadcast(id));
    } else {
      OnlyPublishingAnnounces(s, e);
    }
  }

  /** An attempt gets a block published that is not announced. */
  ghost predicate Hides(a: Answers) {
    Finalizes(a) && !AllZero(a.id) && (a.finalize.ReplyLost? || a.broadcast.NotServed?)
  }

  lemma PublishedIdsAppend(ps: seq<Published>, p: Published)
    ensures PublishedIds(ps + [p]) == PublishedIds(ps) + NonNull(FromBytes(p.id))
  {
    assert (ps + [p])[..|ps|] == ps;
  }

  /** The id the block published by an attempt has, if it publishes one. */
  ghost function NewIds(s: State, e: Event): seq<BlockId> {
    if Attempts(s, e) && Finalizes(e.answers) then NonNull(FromBytes(e.answers.id)) else []
  }

  lemma NewIdsAppend(ps: seq<Published>, ps': seq<Published>, s: State, e: Event)
    requires ps' == ps + if Attempts(s, e) && Finalizes(e.answers) then [NewBlock(e.answers)] else []
    ensures PublishedIds(ps') == PublishedIds(ps) + NewIds(s, e)
  {
    if Attempts(s, e) && Finalizes(e.answers) {
      PublishedIdsAppend(ps, NewBlock(e.answers));
    } else {
      assert ps' == ps;
    }
  }

  lemma PublishedIdsStep(s: State, e: Event)
    requires ReadyToPublish(s)
    ensures PublishedIds(Next(s, e).validator.published) == PublishedIds(s.validator.published) + NewIds(s, e)
  {
    PublishedStep(s, e);
    NewIdsAppend(s.validator.published, Next(s, e).validator.published, s, e);
  }

  /** What is announced falls behind what is published by the blocks hidden. */
  ghost predicate Behind(announced: seq<BlockId>, published: seq<BlockId>, hidden: bool) {
    if hidden then |announced| < |published| else announced == published
  }

  lemma BehindExtends(
    announced: seq<BlockId>, published: seq<BlockId>, hidden: bool, x: seq<BlockId>, y: seq<BlockId>, hides: bool)
    requires Behind(announced, published, hidden) && if hides then |x| < |y| else x == y
    ensures Behind(announced + x, published + y, hidden || hides)
  {
  }

  ghost function AllAnnounced(v: Validator, s: State): seq<BlockId> {
    PublishedIds(v.published) + Announced(s.directives)
  }

  /** An attempt hides its block exactly if it announces fewer ids than it publishes. */
  lemma HidesIff(s: State, e: Event)
    ensures if AttemptsWith(s, e, Hides) then |NewlyAnnounced(s, e)| < |NewIds(s, e)|
            else NewlyAnnounced(s, e) == NewIds(s, e)
  {
  }

  lemma AllAnnouncedGrows(v: Validator, s: State, s': State, x: seq<BlockId>)
    requires Announced(s'.directives) == Announced(s.directives) + x
    ensures AllAnnounced(v, s') == AllAnnounced(v, s) + x
  {
  }

  lemma BehindStep(v: Validator, s: State, e: Event, s': State, hidden: bool)
    requires ReadyToPublish(s) && Behind(AllAnnounced(v, s), PublishedIds(s.validator.published), hidden)
    requires s' == Next(s, e)
    ensures Behind(AllAnnounced(v, s'), PublishedIds(s'.validator.published), hidden || AttemptsWith(s, e, Hides))
  {
    AnnouncedStep(s, e);
    PublishedIdsStep(s, e);
    HidesIff(s, e);
    AllAnnouncedGrows(v, s, s', NewlyAnnounced(s, e));
    BehindExtends(AllAnnounced(v, s), PublishedIds(s.validator.published), hidden,
                  NewlyAnnounced(s, e), NewIds(s, e), AttemptsWith(s, e, Hides));
  }

  /** In every run, whatever calls fail, the non-null ids announced to the peers are those
      of the blocks published, in order, exactly if no block was finalized with the reply
      lost or its announcement not sent. */
  lemma {:induction false} AnnouncesPublishedIff(v: Validator, fate: Fate, events: seq<Event>)
    ensures var s0, s := Start(v, fate), Run(Start(v, fate), events);
            && Behind(AllAnnounced(v, s), PublishedIds(s.validator.published), SomeAttempt(s0, events, Hides))
            && (AllAnnounced(v, s) == PublishedIds(s.validator.published) <==> !SomeAttempt(s0, events, Hides))
    decreases |events|
  {
    if events == [] {
      assert PublishedIds(v.published) + [] == PublishedIds(v.published);
    } else {
      var n := |events| - 1;
      var s0, front := Start(v, fate), events[..n];
      AnnouncesPublishedIff(v, fate, front);
      RunsStayReady(v, fate, front);
      BehindStep(v, Run(s0, front), events[n], Run(s0, events), SomeAttempt(s0, front, Hides));
      SomeAttemptSnoc(s0, events, Hides);
    }
  }

  ghost predicate OnlyPublished(s: State, id: BlockId) {
    id in Announced(s.directives) ==> id in PublishedIds(s.validator.published)
  }

  lemma OnlyPublishedStep(s: State, e: Event, id: BlockId)
    requires ReadyToPublish(s) && OnlyPublished(s, id)
    ensures OnlyPublished(Next(s, e), id)
  {
    AnnouncedStep(s, e);
    PublishedIdsStep(s, e);
  }

  /** An id other than null is announced only if it is that of a block published. */
  lemma {:induction false} AnnouncedWasPublished(v: Validator, fate: Fate, events: seq<Event>, id: BlockId)
    ensures OnlyPublished(Run(Start(v, fate), events), id)
    decreases |events|
  {
    if events != [] {
      var n := |events| - 1;
      AnnouncedWasPublished(v, fate, events[..n], id);
      RunsStayReady(v, fate, events[..n]);
      OnlyPublishedStep(Run(Start(v, fate), events[..n]), events[n], id);
    }
  }

  ghost predicate AnnouncesNull(a: Answers) {
    !a.broadcast.NotServed? && (!Finalizes(a) || a.finalize.ReplyLost? || AllZero(a.id))
  }

  lemma AnnouncesNullStep(s: State, e: Event)
    requires ReadyToPublish(s)
    ensures Broadcast(NULL_ID) in Next(s, e).directives
            <==> Broadcast(NULL_ID) in s.directives || (Attempts(s, e) && AnnouncesNull(e.answers))
  {
    if Attempts(s, e) {
      var (v, id) := Finalized(s.validator, e.answers);
      assert id == AnnouncedId(e.answers);
    }
  }

  /** The null id is announced as a published block exactly if some attempt got no block
      finalized, or one whose reply was lost, or the null id from the validator. */
  lemma {:induction false} AnnouncesNullIff(v: Validator, fate: Fate, events: seq<Event>)
    ensures Broadcast(NULL_ID) in Run(Start(v, fate), events).directives
            <==> SomeAttempt(Start(v, fate), events, AnnouncesNull)
    decreases |events|
  {
    if events != [] {
      var n := |events| - 1;
      AnnouncesNullIff(v, fate, events[..n]);
      RunsStayReady(v, fate, events[..n]);
      AnnouncesNullStep(Run(Start(v, fate), events[..n]), events[n]);
      SomeAttemptSnoc(Start(v, fate), events, AnnouncesNull);
    }
  }

  // ---- Everything the engine tells --------------------------------------------------

  /** The loop handles the event: it runs, and after the close takes the timer case only. */
  ghost predicate Handles(s: State, e: Event) {
    s.status.Running? && (s.closed ==> e.Timer?)
  }

  /** The verdict on a new block: "Devmode" and the block's own summary is the payload to be
      checked, any other is failed. */
  ghost function Verdict(block: Block): Directive {
    if block.payload == [68, 101, 118, 109, 111, 100, 101] + block.summary then Check(block.blockId)
    else Fail(block.blockId)
  }

  /** What is to be told on an event, in terms of what the event brings. */
  ghost function Due(s: State, e: Event): seq<Directive> {
    match e
    case BlockNew(block) => if |block.previousId| == 0 then [] else [Verdict(block)]
    case BlockValid(found, decision) =>
      if found.None? then []
      else
        [SendReceived(found.value.signerId, found.value.blockId)]
        + (if decision.Commit? then [Directive.Commit(found.value.blockId)]
           else if decision.Ignore? then [Directive.Ignore(found.value.blockId)] else [])
    case PeerMessage(t, content, sender) =>
      if t != "received" then []
      else [SendAck(sender, if forall i :: 0 <= i < |content| ==> content[i] == 0 then [] else content)]
    case Timer(expired, a) =>
      if expired && !s.publishedAtHeight && !a.broadcast.NotServed? then [Broadcast(AnnouncedId(a))] else []
    case _ => []
  }

  ghost function AllDue(s: State, events: seq<Event>): seq<Directive> {
    if events == [] then []
    else
      var front, e := events[..|events| - 1], events[|events| - 1];
      AllDue(s, front) + if Handles(Run(s, front), e) then Due(Run(s, front), e) else []
  }

  lemma TellsWhatIsDue(s: State, e: Event)
    requires ReadyToPublish(s)
    ensures Next(s, e).directives == s.directives + if Handles(s, e) then Due(s, e) else []
  {
    if Handles(s, e) {
      match e
      case Timer(_, a) =>
        var (v, id) := Finalized(s.validator, a);
        assert Attempts(s, e) ==> id == AnnouncedId(a);
      case PeerMessage(t, content, sender) => assert AllZero(content) || FromBytes(content) == content;
      case _ =>
    }
  }

  /** In every run, whatever calls fail, all that the engine has told is what was due on the
      events it handled, in order.  So a genesis block is neither checked nor failed, and
      every other new block is one or the other. */
  lemma {:induction false} RunsTellWhatIsDue(v: Validator, fate: Fate, events: seq<Event>)
    ensures Run(Start(v, fate), events).directives == AllDue(Start(v, fate), events)
    decreases |events|
  {
    if events != [] {
      var n := |events| - 1;
      RunsTellWhatIsDue(v, fate, events[..n]);
      RunsStayReady(v, fate, events[..n]);
      TellsWhatIsDue(Run(Start(v, fate), events[..n]), events[n]);
    }
  }

  /** How an event ends the run, if it does. */
  ghost function End(s: State, e: Event): Option<Status> {
    match e
    case BlockValid(found, decision) => if found.None? || decision.Panic? then Some(Panicked(InGetBlock)) else None
    case BlockCommit(cancel, initialize) =>
      if !cancel.Answered? then Some(Panicked(InCancel))
      else if !initialize.Answered? then Some(Panicked(InInitialize)) else None
    case PeerMessage(t, _, _) =>
      if t == "published" || t == "received" || t == "ack" then None else Some(Panicked(InPeerMessage))
    case Timer(expired, a) =>
      if expired && !s.publishedAtHeight && !a.broadcast.Answered? then Some(Panicked(InBroadcast)) else None
    case Shutdown(byPointer) => if byPointer then None else Some(Stopped)
    case _ => None
  }

  lemma EndStep(s: State, e: Event)
    ensures Next(s, e).status == if Handles(s, e) && End(s, e).Some? then End(s, e).value else s.status
  {
  }

  /** The events ended the run with this status: one handled in a running state did. */
  ghost predicate EndedBy(s: State, events: seq<Event>, status: Status) {
    exists i :: 0 <= i < |events| && EndsWith(Run(s, events[..i]), events[i], status)
  }

  ghost predicate EndsWith(s: State, e: Event, status: Status) {
    Handles(s, e) && End(s, e) == Some(status)
  }

  lemma EndedByGrows(s: State, events: seq<Event>, status: Status)
    requires events != []
    requires var n := |events| - 1; EndedBy(s, events[..n], status) || EndsWith(Run(s, events[..n]), events[n], status)
    ensures EndedBy(s, events, status)
  {
    var front := events[..|events| - 1];
    if EndedBy(s, front, status) {
      var i :| 0 <= i < |front| && EndsWith(Run(s, front[..i]), front[i], status);
      assert front[..i] == events[..i] && front[i] == events[i];
    }
  }

  lemma EndedByFront(s: State, events: seq<Event>, status: Status)
    requires events != [] && EndedBy(s, events, status)
    ensures var n := |events| - 1; EndedBy(s, events[..n], status) || EndsWith(Run(s, events[..n]), events[n], status)
  {
    var front := events[..|events| - 1];
    var i :| 0 <= i < |events| && EndsWith(Run(s, events[..i]), events[i], status);
    if i < |front| {
      assert front[..i] == events[..i] && front[i] == events[i];
    }
  }

  /** In every run that starts running, the loop has stopped or panicked in a place exactly
      if it handled an event that ends it there. */
  lemma {:induction false} EndsIff(s: State, events: seq<Event>, status: Status)
    requires s.status.Running? && !status.Running?
    ensures Run(s, events).status == status <==> EndedBy(s, events, status)
    decreases |events|
  {
    if events != [] {
      var n := |events| - 1;
      EndsIff(s, events[..n], status);
      EndStep(Run(s, events[..n]), events[n]);
      if EndedBy(s, events, status) {
        EndedByFront(s, events, status);
      } else if EndedBy(s, events[..n], status) || EndsWith(Run(s, events[..n]), events[n], status) {
        EndedByGrows(s, events, status);
      }
    }
  }

  // ---- Shutdown -----------------------------------------------------------------

  /** The loop, running and with its channel open, receives a shutdown sent as a value. */
  ghost predicate ReceivesStop(s: State, events: seq<Event>) {
    exists i :: && 0 <= i < |events| && events[i] == Shutdown(false)
                && Run(s, events[..i]).status.Running? && !Run(s, events[..i]).closed
  }

  lemma ReceivesStopSnoc(s: State, events: seq<Event>)
    requires events != []
    ensures var front, e := events[..|events| - 1], events[|events| - 1];
            ReceivesStop(s, events) <==>
            || ReceivesStop(s, front)
            || (e == Shutdown(false) && Run(s, front).status.Running? && !Run(s, front).closed)
  {
    var n := |events| - 1;
    var front := events[..n];
    assert forall i :: 0 <= i < n ==> front[..i] == events[..i] && front[i] == events[i];
    if ReceivesStop(s, front) {
      var i :| && 0 <= i < |front| && front[i] == Shutdown(false)
               && Run(s, front[..i]).status.Running? && !Run(s, front[..i]).closed;
      assert events[i] == front[i] && events[..i] == front[..i];
    }
  }

  lemma StopStep(s: State, e: Event)
    ensures Next(s, e).status.Stopped? <==>
            s.status.Stopped? || (e == Shutdown(false) && s.status.Running? && !s.closed)
  {
  }

  /** The loop stops exactly if it receives such a shutdown. */
  lemma {:induction false} StopsIff(s: State, events: seq<Event>)
    requires s.status.Running?
    ensures Run(s, events).status.Stopped? <==> ReceivesStop(s, events)
    decreases |events|
  {
    if events != [] {
      StopsIff(s, events[..|events| - 1]);
      ReceivesStopSnoc(s, events);
      StopStep(Run(s, events[..|events| - 1]), events[|events| - 1]);
    }
  }

  /** The engine library sends shutdown as a pointer, so under it the loop never
      stops, whatever else happens. */
  lemma NeverStopsUnderLibrary(s: State, events: seq<Event>)
    requires s.status.Running? && forall e :: e in events && e.Shutdown? ==> e.byPointer
    ensures !Run(s, events).status.Stopped?
  {
    StopsIff(s, events);
  }

  ghost function Timers(events: seq<Event>): (ts: seq<Event>)
    ensures forall e :: e in ts ==> e.Timer? && e in events
    ensures |ts| <= |events|
  {
    if events == [] then []
    else
      var n := |events| - 1;
      if events[n].Timer? then Timers(events[..n]) + [events[n]] else Timers(events[..n])
  }

  lemma RunSnoc(s: State, events: seq<Event>, e: Event)
    ensures Run(s, events + [e]) == Next(Run(s, events), e)
  {
    assert (events + [e])[..|events|] == events;
  }

  lemma {:induction false} RunSplit(s: State, events: seq<Event>, more: seq<Event>)
    ensures Run(s, events + more) == Run(Run(s, events), more)
    decreases |more|
  {
    if more == [] {
      assert events + more == events;
    } else {
      RunSplit(s, events, more[..|more| - 1]);
      assert (events + more)[..|events + more| - 1] == events + more[..|more| - 1];
    }
  }

  lemma TimerIgnoresClose(s: State, e: Event)
    requires e.Timer?
    ensures Next(s.(closed := true), e) == Next(s, e).(closed := true)
  {
  }

  lemma OthersEndWithClose(s: State, e: Event)
    requires !e.Timer?
    ensures Next(s.(closed := true), e) == s.(closed := true)
  {
  }

  lemma {:induction false} OnlyTimersAfterClose(s: State, events: seq<Event>)
    ensures Run(s.(closed := true), events) == Run(s, Timers(events)).(closed := true)
    decreases |events|
  {
    if events != [] {
      var n := |events| - 1;
      OnlyTimersAfterClose(s, events[..n]);
      var s1 := Run(s, Timers(events[..n]));
      if events[n].Timer? {
        TimerIgnoresClose(s1, events[n]);
        RunSnoc(s, Timers(events[..n]), events[n]);
      } else {
        OthersEndWithClose(s1, events[n]);
      }
    }
  }

  lemma LibraryShutdown(s: State)
    requires s.status.Running? && !s.closed
    ensures Run(s, [Shutdown(true), ChannelClosed]) == s.(closed := true)
  {
    var shutdown := [Shutdown(true), ChannelClosed];
    assert shutdown[..1] == [Shutdown(true)] && shutdown[..1][..0] == [];
    assert Run(s, shutdown[..1]) == Next(Run(s, []), Shutdown(true));
  }

  /** After the pointer and the close that follows it the engine does not stop.  Whatever
      else happens, only turns held up until the timer ran out count; without an expired
      one nothing changes, and with any number of them at most one more block is
      published, and none if one was already published at this height. */
  lemma AfterLibraryShutdown(s: State, events: seq<Event>)
    requires s.status.Running? && !s.closed
    ensures var s' := Run(s, [Shutdown(true), ChannelClosed] + events);
            && s' == Run(s, Timers(events)).(closed := true)
            && !s'.status.Stopped?
            && |s'.validator.published| <= |s.validator.published| + (if s.publishedAtHeight then 0 else 1)
            && (s.publishedAtHeight || NoneExpired(events) ==> s' == s.(closed := true))
  {
    RunSplit(s, [Shutdown(true), ChannelClosed], events);
    LibraryShutdown(s);
    OnlyTimersAfterClose(s, events);
    OnlyTimers(s, Timers(events));
  }

  ghost predicate NoneExpired(events: seq<Event>) {
    forall e :: e in events && e.Timer? ==> !e.expired
  }

  lemma OnlyTimers(s: State, timers: seq<Event>)
    requires s.status.Running? && forall e :: e in timers ==> e.Timer?
    ensures var s' := Run(s, timers);
            && !s'.status.Stopped?
            && |s'.validator.published| <= |s.validator.published| + (if s.publishedAtHeight then 0 else 1)
            && (s.publishedAtHeight || NoneExpired(timers) ==> s' == s)
  {
    StopsIff(s, timers);
    PublishedWithoutCommit(s, timers);
    if s.publishedAtHeight || NoneExpired(timers) {
      IdleTimers(s, timers);
    }
  }

  lemma {:induction false} IdleTimers(s: State, timers: seq<Event>)
    requires forall e :: e in timers ==> e.Timer? && (s.publishedAtHeight || !e.expired)
    ensures Run(s, timers) == s
    decreases |timers|
  {
    if timers != [] {
      IdleTimers(s, timers[..|timers| - 1]);
      assert timers[|timers| - 1] in timers;
    }
  }

  // ---- The engine as written ------------------------------------------------

  class ValidatorService {
    var building: Building
    var published: seq<Published>

    function View(): (v: Validator)
      reads this
    {
      Validator(building, published)
    }

    method InitializeBlock(fate: Fate) returns (r: Reply)
      modifies this
      ensures (View(), r) == Initialize(old(View()), fate)
    {
      if fate.NotServed? {
        return Fault;
      }
      if building.NoBlock? {
        building := Open;
        r := Done;
      } else {
        r := InvalidState;
      }
      if fate.ReplyLost? {
        r := Fault;
      }
    }

    method SummarizeBlock(ready: bool, fate: Fate, contents: seq<Byte>) returns (summary: seq<Byte>, r: Reply)
      modifies this
      ensures (View(), r) == Summarize(old(View()), ready, fate, contents)
      ensures r.Done? ==> building == Summarized(summary)
      ensures !r.Done? ==> summary == []
    {
      if building.Open? && !ready {
        return [], NotReady;
      }
      if fate.NotServed? {
        return [], Fault;
      }
      match building {
        case NoBlock => summary, r := [], InvalidState;
        case Summarized(s) => summary, r := s, Done;
        case Open =>
          building := Summarized(contents);
          summary, r := contents, Done;
      }
      if fate.ReplyLost? {
        return [], Fault;
      }
    }

    method FinalizeBlock(ready: bool, fate: Fate, data: seq<Byte>, signed: seq<Byte>) returns (id: BlockId, r: Reply)
      modifies this
      ensures (View(), r) == Finalize(old(View()), ready, fate, data, signed)
      ensures id == if r.Done? then FromBytes(signed) else NULL_ID
    {
      if building.Summarized? && !ready {
        return NULL_ID, NotReady;
      }
      if fate.NotServed? {
        return NULL_ID, Fault;
      }
      if building.Summarized? {
        published := published + [Published(signed, data, building.summary)];
        building := NoBlock;
        id, r := FromBytes(signed), Done;
      } else {
        id, r := NULL_ID, InvalidState;
      }
      if fate.ReplyLost? {
        return NULL_ID, Fault;
      }
    }

    method CancelBlock(fate: Fate) returns (r: Reply)
      modifies this
      ensures (View(), r) == Cancel(old(View()), fate)
    {
      if fate.NotServed? {
        return Fault;
      }
      if building.NoBlock? {
        r := InvalidState;
      } else {
        building := NoBlock;
        r := Done;
      }
      if fate.ReplyLost? {
        r := Fault;
      }
    }
  }

  class DevmodeEngine {
    const service: ValidatorService
    var status: Status
    var publishedAtHeight: bool
    var closed: bool
    var directives: seq<Directive>
    var notReadyToSummarize: bool
    var notReadyToFinalize: bool

    function View(): (s: State)
      reads this, service
    {
      State(status, publishedAtHeight, closed, service.View(), directives)
    }

    /** The part of Start before the loop. */
    constructor (service: ValidatorService, fate: Fate)
      modifies service
      ensures this.service == service && View() == Start(old(service.View()), fate)
    {
      this.service := service;
      status, publishedAtHeight, closed, directives := Running, false, false, [];
      notReadyToSummarize, notReadyToFinalize := false, false;
      new;
      InitializeBlock(fate);
    }

    method InitializeBlock(fate: Fate)
      modifies this`status, service
      ensures View() == InitializeOrPanic(old(View()), fate)
    {
      var r := service.InitializeBlock(fate);
      if !r.Done? {
        status := Panicked(InInitialize);
      }
    }

    /** finalizeBlock, where the validator is not ready for `summarizeWaits` and
        then `finalizeWaits` calls. */
    method FinalizeBlock(a: Answers, summarizeWaits: nat, finalizeWaits: nat) returns (id: BlockId)
      modifies this`notReadyToSummarize, this`notReadyToFinalize, service
      ensures (service.View(), id) == Finalized(old(service.View()), a)
      ensures !notReadyToSummarize && !notReadyToFinalize
    {
      ghost var before := service.View();
      var waits := summarizeWaits;
      var summary, r := service.SummarizeBlock(waits == 0, a.summarize, a.summary);
      while r.NotReady?
        invariant waits == 0 ==> !r.NotReady?
        invariant r.NotReady? ==> service.View() == before
        invariant !r.NotReady? ==> (service.View(), r) == Summarize(before, true, a.summarize, a.summary)
        invariant r.Done? ==> service.building == Summarized(summary)
        invariant !r.Done? ==> summary == []
        decreases waits
      {
        if !notReadyToSummarize {
          notReadyToSummarize := true;
        }
        waits := waits - 1;
        summary, r := service.SummarizeBlock(waits == 0, a.summarize, a.summary);
      }
      notReadyToSummarize := false;

      var newConsensus := CreateConsensus(summary);
      ghost var summarized := service.View();
      waits := finalizeWaits;
      id, r := service.FinalizeBlock(waits == 0, a.finalize, newConsensus, a.id);
      while r.NotReady?
        invariant !notReadyToSummarize
        invariant waits == 0 ==> !r.NotReady?
        invariant r.NotReady? ==> service.View() == summarized
        invariant !r.NotReady? ==>
                    (service.View(), r) == Finalize(summarized, true, a.finalize, newConsensus, a.id)
        invariant id == if r.Done? then FromBytes(a.id) else NULL_ID
        decreases waits
      {
        if !notReadyToFinalize {
          notReadyToFinalize := true;
        }
        waits := waits - 1;
        id, r := service.FinalizeBlock(waits == 0, a.finalize, newConsensus, a.id);
      }
      notReadyToFinalize := false;
    }

    /** The timer case of the loop. */
    method Tick(expired: bool, a: Answers, summarizeWaits: nat, finalizeWaits: nat)
      requires status.Running?
      modifies this, service
      ensures View() == Next(old(View()), Timer(expired, a))
    {
      if !publishedAtHeight && expired {
        var newBlockId := FinalizeBlock(a, summarizeWaits, finalizeWaits);
        publishedAtHeight := true;
        if !a.broadcast.NotServed? {
          directives := directives + [Broadcast(newBlockId)];
        }
        if !a.broadcast.Answered? {
          status := Panicked(InBroadcast);
        }
      }
    }

    method HandlePeerMessage(messageType: string, content: seq<Byte>, sender: seq<Byte>)
      requires status.Running? && !closed
      modifies this
      ensures View() == Next(old(View()), PeerMessage(messageType, content, sender))
      ensures directives == old(directives)
                            + if messageType == "received" then [SendAck(sender, FromBytes(content))] else []
      ensures status == if messageType == "published" || messageType == "received" || messageType == "ack"
                        then old(status) else Panicked(InPeerMessage)
    {
      match messageType
      case "published" =>
      case "received" => directives := directives + [SendAck(sender, FromBytes(content))];
      case "ack" =>
      case _ => status := Panicked(InPeerMessage);
    }

    method HandleBlockCommit(cancel: Fate, initialize: Fate)
      requires status.Running? && !closed
      modifies this, service
      ensures View() == Next(old(View()), BlockCommit(cancel, initialize))
    {
      var r := service.CancelBlock(cancel);
      if !r.Done? && !r.InvalidState? {
        status := Panicked(InCancel);
        return;
      }
      publishedAtHeight := false;
      InitializeBlock(initialize);
    }

    /** HandleBlockValid with the validator's blocks and chain head: the signer is told
        first, then the fork choice decides. */
    method HandleBlockValid(store: ForkChoice.Store, chainHead: Block, blockId: BlockId)
      returns (d: ForkChoice.Decision)
      requires status.Running? && !closed && ForkChoice.KeyedById(store)
      requires blockId in store && store[blockId].blockNum < chainHead.blockNum ==>
                 ForkChoice.WalkTerminates(store, chainHead, store[blockId].blockNum)
      modifies this
      ensures View() == Next(old(View()), BlockValid(if blockId in store then Some(store[blockId]) else None, d))
      ensures ForkChoice.WellFormed(store) && ForkChoice.Has(store, chainHead) && blockId in store ==>
                && status.Running?
                && directives == old(directives)
                                 + [SendReceived(store[blockId].signerId, blockId),
                                    if ForkChoice.Improves(store, chainHead, store[blockId])
                                    then Directive.Commit(blockId) else Directive.Ignore(blockId)]
    {
      ghost var lookups;
      d, lookups := ForkChoice.HandleBlockValid(store, chainHead, blockId);
      if blockId !in store {
        status := Panicked(InGetBlock);
        return;
      }
      var block := store[blockId];
      directives := directives + [SendReceived(block.signerId, block.blockId)];
      match d
      case Commit => directives := directives + [Directive.Commit(blockId)];
      case Ignore => directives := directives + [Directive.Ignore(blockId)];
      case Panic => status := Panicked(InGetBlock);
    }

    method HandleBlockNew(block: Block)
      requires status.Running? && !closed
      modifies this
      ensures View() == Next(old(View()), BlockNew(block))
      ensures directives == old(directives) + if |block.previousId| == 0 then [] else [Verdict(block)]
      ensures status == old(status) && publishedAtHeight == old(publishedAtHeight)
    {
      if block.previousId == NULL_ID {
        return;
      }
      if CheckConsensus(block.payload, block.summary) {
        directives := directives + [Check(block.blockId)];
      } else {
        directives := directives + [Fail(block.blockId)];
      }
    }
  }
}
