/** The consensus engine's event loop, the service that makes calls through it,
    and the validator (consensus/engine.go, consensus/service.go).  The engine
    loop, the calling service and the engine implementation are separate threads;
    a run is any sequence of their steps. */
module ConsensusEngine {
  import opened Common
  import opened BlockIds

  // ---- Messages --------------------------------------------------------------

  type CorrId = string

  datatype Type =
    | PeerConnected | PeerDisconnected | PeerMessage
    | BlockNew | BlockValid | BlockInvalid | BlockCommit
    | PingRequest | PingResponse | NotifyAck
    | Rpc(code: nat)   // every other type: service requests and responses

  datatype PeerHeader = PeerHeader(
    signerId: seq<Byte>, contentSha512: seq<Byte>, messageType: string, name: string, version: string)

  /** The decoded content.  A field that protobuf leaves unset is None, as is the
      header of a peer message if it does not decode. */
  datatype Content =
    | Undecodable
    | PeerInfo(peer: Option<seq<Byte>>)
    | PeerId(id: seq<Byte>)
    | FromPeer(header: Option<PeerHeader>, signature: seq<Byte>, body: seq<Byte>, sender: seq<Byte>)
    | NewBlock(proto: BlockProto)
    | Id(bytes: seq<Byte>)
    | Bytes(data: seq<Byte>)

  datatype Message = Message(t: Type, corrId: CorrId, content: Content)

  datatype Update =
    | UpdatePeerConnected(peer: seq<Byte>)
    | UpdatePeerDisconnected(peer: seq<Byte>)
    | UpdatePeerMessage(header: PeerHeader, signature: seq<Byte>, body: seq<Byte>, sender: seq<Byte>)
    | UpdateBlockNew(block: Block)
    | UpdateBlockValid(id: BlockId)
    | UpdateBlockInvalid(id: BlockId)
    | UpdateBlockCommit(id: BlockId)
    | UpdateShutdown

  predicate IsNotification(t: Type) {
    t.PeerConnected? || t.PeerDisconnected? || t.PeerMessage? || t.BlockNew? || t.BlockValid? || t.BlockInvalid?
    || t.BlockCommit?
  }

  /** What handleUpdate makes of a notification.  A connected peer without peer
      info, or a peer message whose header does not decode, crashes the process. */
  datatype Translation = Update(u: Update) | Skip | Crash

  function Translate(m: Message): (r: Translation) {
    match (m.t, m.content)
    case (PeerConnected, PeerInfo(p)) => if p.Some? then Update(UpdatePeerConnected(FromBytes(p.value))) else Crash
    case (PeerDisconnected, PeerId(id)) => Update(UpdatePeerDisconnected(FromBytes(id)))
    case (PeerMessage, FromPeer(h, signature, body, sender)) =>
      if h.Some? then Update(UpdatePeerMessage(h.value, signature, body, FromBytes(sender))) else Crash
    case (BlockNew, NewBlock(proto)) => Update(UpdateBlockNew(FromProto(proto)))
    case (BlockValid, Id(bytes)) => Update(UpdateBlockValid(FromBytes(bytes)))
    case (BlockInvalid, Id(bytes)) => Update(UpdateBlockInvalid(FromBytes(bytes)))
    case (BlockCommit, Id(bytes)) => Update(UpdateBlockCommit(FromBytes(bytes)))
    case _ => Skip
  }

  function Ack(c: CorrId): Message { Message(NotifyAck, c, Bytes([])) }

  function Pong(c: CorrId): Message { Message(PingResponse, c, Bytes([])) }

  // ---- The engine loop -------------------------------------------------------

  const CHANNEL_CAPACITY := 2

  datatype Loop =
    | Polling
    | Handling(m: Message)   // in handleUpdate, about to put the update on the channel
    | Closing                // in performShutdown, about to put the shutdown update
    | Finished
    | Crashed

  /** What the loop does that others can see, in order. */
  datatype Act = Put(u: Update) | Tell(m: Message) | Close

  datatype Engine = Engine(
    loop: Loop,
    channel: seq<Update>,    // updateChan
    log: seq<Message>,       // decoded messages received from the validator
    acts: seq<Act>)

  /** A validator message passed on to the service, with its place in the log. */
  datatype Forwarded = Forwarded(msg: Message, at: nat)

  /** handleUpdate up to the send on the channel, and the ack if there is none. */
  function BeginHandling(e: Engine, m: Message, tr: Translation): (e': Engine) {
    match tr
    case Update(_) => e.(loop := Handling(m))
    case Skip => e.(acts := e.acts + [Tell(Ack(m.corrId))])
    case Crash => e.(loop := Crashed)
  }

  /** receiveValidator for a decodable message. */
  function Receive(e: Engine, corrIds: set<CorrId>, m: Message): (r: (Engine, Option<Forwarded>)) {
    var e1 := e.(log := e.log + [m]);
    if IsNotification(m.t) then (BeginHandling(e1, m, Translate(m)), None)
    else if m.t == PingRequest then (e1.(acts := e.acts + [Tell(Pong(m.corrId))]), None)
    else if m.corrId != "" && m.corrId in corrIds then (e1, Some(Forwarded(m, |e.log|)))
    else (e1, None)
  }

  /** The rest of handling a notification, possible once the channel has room. */
  function Push(e: Engine, m: Message, u: Update): (e': Engine) {
    e.(loop := Polling, channel := e.channel + [u], acts := e.acts + [Put(u), Tell(Ack(m.corrId))])
  }

  function Closed(e: Engine): (e': Engine) {
    e.(loop := Finished, channel := e.channel + [UpdateShutdown], acts := e.acts + [Put(UpdateShutdown), Close])
  }

  predicate Known(command: string) {
    command == "shutdown" || command == "restart"
  }

  function ReceiveShutdown(e: Engine, command: string): (e': Engine) {
    e.(loop := if Known(command) then Closing else Finished)
  }

  // ---- The service -----------------------------------------------------------

  datatype Call =
    | NoCall
    | Sent(c: CorrId, expected: Type)                   // sent, id not recorded yet
    | Waiting(c: CorrId, expected: Type, since: nat)    // recorded when the log had length `since`

  /** A serviceRpc that returned a response; `ok` says whether as a success. */
  datatype Completed = Completed(c: CorrId, expected: Type, since: nat, response: Forwarded, ok: bool)

  datatype Service = Service(
    call: Call,
    corrIds: set<CorrId>,
    inbox: seq<Forwarded>,
    stash: map<CorrId, Forwarded>,
    used: set<CorrId>,
    results: seq<Completed>)

  function Complete(v: Service, f: Forwarded): (v': Service)
    requires v.call.Waiting?
  {
    var call := v.call;
    var ok := f.msg.t == call.expected && !f.msg.content.Undecodable?;
    v.(call := NoCall, corrIds := v.corrIds - {call.c},
       results := v.results + [Completed(call.c, call.expected, call.since, f, ok)])
  }

  /** One turn of RecvMsgWithId inside serviceRpc. */
  function ServiceTurn(v: Service): (v': Service)
    requires v.call.Waiting?
  {
    if v.call.c in v.stash then Complete(v, v.stash[v.call.c])
    else if v.inbox == [] then v
    else
      var f := v.inbox[0];
      var v1 := v.(inbox := v.inbox[1..]);
      if f.msg.corrId == v.call.c then Complete(v1, f)
      else v1.(stash := v.stash[f.msg.corrId := f])
  }

  // ---- Steps and runs --------------------------------------------------------

  datatype State = State(
    engine: Engine,
    service: Service,
    consumed: seq<Update>,        // taken from the channel by the implementation
    requests: seq<Message>,       // service to engine
    toValidator: seq<Message>)    // requests passed on

  datatype Step =
    | FromValidator(msg: Message)
    | PushUpdate
    | FromService
    | Command(command: string)
    | PushShutdown
    | TakeUpdate
    | StartCall(c: CorrId, request: Message, expected: Type)
    | RecordId
    | ServiceReceive(fails: bool)

  function Init(): (s: State) {
    State(Engine(Polling, [], [], []), Service(NoCall, {}, [], map[], {}, []), [], [], [])
  }

  function Next(s: State, step: Step): (s': State) {
    var e, v := s.engine, s.service;
    match step
    case FromValidator(m) =>
      if !e.loop.Polling? then s
      else
        var (e', forwarded) := Receive(e, v.corrIds, m);
        s.(engine := e', service := if forwarded.Some? then v.(inbox := v.inbox + [forwarded.value]) else v)
    case PushUpdate =>
      if e.loop.Handling? && Translate(e.loop.m).Update? && |e.channel| < CHANNEL_CAPACITY then
        s.(engine := Push(e, e.loop.m, Translate(e.loop.m).u))
      else s
    case FromService =>
      if e.loop.Polling? && s.requests != [] then
        s.(requests := s.requests[1..], toValidator := s.toValidator + [s.requests[0]])
      else s
    case Command(command) => if e.loop.Polling? then s.(engine := ReceiveShutdown(e, command)) else s
    case PushShutdown =>
      if e.loop.Closing? && |e.channel| < CHANNEL_CAPACITY then s.(engine := Closed(e)) else s
    case TakeUpdate =>
      if e.channel != [] then
        s.(engine := e.(channel := e.channel[1..]), consumed := s.consumed + [e.channel[0]])
      else s
    case StartCall(c, request, expected) =>
      if v.call.NoCall? && c != "" && c !in v.used then
        s.(service := v.(call := Sent(c, expected), used := v.used + {c}),
           requests := s.requests + [request.(corrId := c)])
      else s
    case RecordId =>
      if v.call.Sent? then
        s.(service := v.(call := Waiting(v.call.c, v.call.expected, |e.log|), corrIds := v.corrIds + {v.call.c}))
      else s
    case ServiceReceive(fails) =>
      if !v.call.Waiting? then s
      else if fails && e.loop.Finished? then s.(service := v.(call := NoCall))  // connection closed
      else s.(service := ServiceTurn(v))
  }

  function Run(steps: seq<Step>): (s: State)
    decreases |steps|
  {
    if steps == [] then Init() else Next(Run(steps[..|steps| - 1]), steps[|steps| - 1])
  }

  /** The steps that follow on a state of a run. */
  ghost function RunFrom(s: State, steps: seq<Step>): (s': State)
    decreases |steps|
  {
    if steps == [] then s else Next(RunFrom(s, steps[..|steps| - 1]), steps[|steps| - 1])
  }

  lemma {:induction false} RunContinues(steps: seq<Step>, more: seq<Step>)
    ensures Run(steps + more) == RunFrom(Run(steps), more)
    decreases |more|
  {
    if more == [] {
      assert steps + more == steps;
    } else {
      RunContinues(steps, more[..|more| - 1]);
      assert (steps + more)[..|steps + more| - 1] == steps + more[..|more| - 1];
    }
  }

  // ---- Translation ------------------------------------------------------------

  /** The notification an update stands for. */
  ghost function NotificationOf(u: Update, c: CorrId): Message
    requires !u.UpdateShutdown?
  {
    match u
    case UpdatePeerConnected(p) => Message(PeerConnected, c, PeerInfo(Some(p)))
    case UpdatePeerDisconnected(p) => Message(PeerDisconnected, c, PeerId(p))
    case UpdatePeerMessage(h, signature, body, sender) =>
      Message(PeerMessage, c, FromPeer(Some(h), signature, body, sender))
    case UpdateBlockNew(b) =>
      Message(BlockNew, c, NewBlock(BlockProto(b.blockId, b.previousId, b.signerId, b.blockNum, b.payload, b.summary)))
    case UpdateBlockValid(id) => Message(BlockValid, c, Id(id))
    case UpdateBlockInvalid(id) => Message(BlockInvalid, c, Id(id))
    case UpdateBlockCommit(id) => Message(BlockCommit, c, Id(id))
  }

  /** All ids in the update are canonical. */
  ghost predicate IsCanonical(u: Update) {
    match u
    case UpdatePeerConnected(p) => Canonical(p)
    case UpdatePeerDisconnected(p) => Canonical(p)
    case UpdatePeerMessage(_, _, _, sender) => Canonical(sender)
    case UpdateBlockNew(b) => Canonical(b.blockId) && Canonical(b.previousId) && Canonical(b.signerId)
    case UpdateBlockValid(id) => Canonical(id)
    case UpdateBlockInvalid(id) => Canonical(id)
    case UpdateBlockCommit(id) => Canonical(id)
    case UpdateShutdown => true
  }

  /** Translating is the inverse of notifying on exactly the canonical updates. */
  lemma TranslateInvertsIff(u: Update, c: CorrId)
    requires !u.UpdateShutdown?
    ensures IsNotification(NotificationOf(u, c).t)
    ensures Translate(NotificationOf(u, c)) == Update(u) <==> IsCanonical(u)
  {
  }

  /** The id a notification brings: no id at all if it is nothing but zeroes. */
  ghost function Given(id: seq<Byte>): seq<Byte> {
    if forall i :: 0 <= i < |id| ==> id[i] == 0 then [] else id
  }

  /** The translation of every kind of message, field by field.  Of the seven kinds of
      notification, one that does not decode is skipped. */
  lemma TranslationIs(m: Message)
    ensures IsNotification(m.t) <==> !m.t.PingRequest? && !m.t.PingResponse? && !m.t.NotifyAck? && !m.t.Rpc?
    ensures m.content.Undecodable? ==> Translate(m) == Skip
    ensures m.t.PeerConnected? && m.content.PeerInfo? ==>
              Translate(m) == if m.content.peer.None? then Crash
                              else Update(UpdatePeerConnected(Given(m.content.peer.value)))
    ensures m.t.PeerDisconnected? && m.content.PeerId? ==>
              Translate(m) == Update(UpdatePeerDisconnected(Given(m.content.id)))
    ensures m.t.PeerMessage? && m.content.FromPeer? ==>
              var peer := m.content;
              Translate(m) == if peer.header.None? then Crash
                              else Update(UpdatePeerMessage(peer.header.value, peer.signature, peer.body,
                                                            Given(peer.sender)))
    ensures m.t.BlockNew? && m.content.NewBlock? ==>
              var p := m.content.proto;
              Translate(m) == Update(UpdateBlockNew(
                Block(Given(p.blockId), Given(p.previousId), Given(p.signerId), p.blockNum, p.payload, p.summary)))
    ensures m.t.BlockValid? && m.content.Id? ==> Translate(m) == Update(UpdateBlockValid(Given(m.content.bytes)))
    ensures m.t.BlockInvalid? && m.content.Id? ==> Translate(m) == Update(UpdateBlockInvalid(Given(m.content.bytes)))
    ensures m.t.BlockCommit? && m.content.Id? ==> Translate(m) == Update(UpdateBlockCommit(Given(m.content.bytes)))
  {
  }

  /** A translated message keeps its type, and its ids come out canonical: notifying
      the update and translating again gives the same update. */
  lemma TranslateIsStable(m: Message, c: CorrId)
    requires Translate(m).Update?
    ensures !Translate(m).u.UpdateShutdown? && IsCanonical(Translate(m).u)
    ensures NotificationOf(Translate(m).u, c).t == m.t
    ensures Translate(NotificationOf(Translate(m).u, c)) == Translate(m)
  {
  }

  // ---- Notifications that end the process ---------------------------------------

  ghost predicate Crashes(m: Message) {
    IsNotification(m.t) && Translate(m).Crash?
  }

  ghost predicate NoneCrashes(log: seq<Message>) {
    forall m :: m in log ==> !Crashes(m)
  }

  lemma NoneCrashesSnoc(log: seq<Message>)
    requires log != [] && NoneCrashes(log[..|log| - 1]) && !Crashes(log[|log| - 1])
    ensures NoneCrashes(log)
  {
    assert log == log[..|log| - 1] + [log[|log| - 1]];
  }

  /** Exactly two kinds of notification end the process: a connected peer without
      peer info, and a peer message whose header does not decode. */
  lemma CrashesIff(m: Message)
    ensures Crashes(m) <==>
            || (m.t == PeerConnected && m.content.PeerInfo? && m.content.peer.None?)
            || (m.t == PeerMessage && m.content.FromPeer? && m.content.header.None?)
  {
  }

  // ---- Notifications become updates, in order ---------------------------------

  /** What the loop does for one message, written without the loop. */
  ghost function Reaction(m: Message): seq<Act> {
    if IsNotification(m.t) then NotificationReaction(m.corrId, Translate(m))
    else if m.t == PingRequest then [Tell(Pong(m.corrId))]
    else []
  }

  ghost function NotificationReaction(c: CorrId, tr: Translation): seq<Act> {
    match tr
    case Update(u) => [Put(u), Tell(Ack(c))]
    case Skip => [Tell(Ack(c))]
    case Crash => []
  }

  ghost function Reactions(log: seq<Message>): seq<Act> {
    if log == [] then [] else Reactions(log[..|log| - 1]) + Reaction(log[|log| - 1])
  }

  /** The messages completely dealt with: all, but for the one being handled and the
      one that ended the process. */
  ghost function HandledLog(e: Engine): seq<Message> {
    if (e.loop.Handling? || e.loop.Crashed?) && e.log != [] then e.log[..|e.log| - 1] else e.log
  }

  ghost predicate HasClosed(e: Engine) {
    e.acts != [] && e.acts[|e.acts| - 1] == Close
  }

  /** The updates put on the channel, in order. */
  ghost function Puts(acts: seq<Act>): seq<Update> {
    if acts == [] then []
    else Puts(acts[..|acts| - 1]) + if acts[|acts| - 1].Put? then [acts[|acts| - 1].u] else []
  }

  ghost predicate LoopFaithful(s: State) {
    var e := s.engine;
    && (e.loop.Handling? ==> e.log != [] && e.loop.m == e.log[|e.log| - 1] && IsNotification(e.loop.m.t)
                             && Translate(e.loop.m).Update?)
    && (e.loop.Crashed? ==> e.log != [] && Crashes(e.log[|e.log| - 1]))
    && NoneCrashes(HandledLog(e))
    && (e.acts == Reactions(HandledLog(e))
        || (e.loop.Finished? && e.acts == Reactions(e.log) + [Put(UpdateShutdown), Close]))
    && s.consumed + e.channel == Puts(e.acts)
    && |e.channel| <= CHANNEL_CAPACITY
  }

  lemma PutsAppend(acts: seq<Act>, a: Act)
    ensures Puts(acts + [a]) == Puts(acts) + if a.Put? then [a.u] else []
  {
    assert (acts + [a])[..|acts|] == acts;
  }

  lemma PutsAppendTwo(acts: seq<Act>, a: Act, b: Act)
    ensures Puts(acts + [a, b]) == Puts(acts) + (if a.Put? then [a.u] else []) + (if b.Put? then [b.u] else [])
  {
    PutsAppend(acts, a);
    PutsAppend(acts + [a], b);
    assert acts + [a, b] == acts + [a] + [b];
  }

  lemma ReactionsAppend(log: seq<Message>, m: Message)
    ensures Reactions(log + [m]) == Reactions(log) + Reaction(m)
  {
    assert (log + [m])[..|log|] == log;
  }

  /** From `e` to `e'` the message `m` was received: reacted to at once, left to be
      handled, or the end of the process. */
  ghost predicate Reacted(e: Engine, e': Engine, m: Message, toHandle: bool, crashes: bool, reaction: seq<Act>) {
    && e'.log == e.log + [m] && e'.channel == e.channel
    && if crashes then e'.loop == Crashed && e'.acts == e.acts
       else if toHandle then e'.loop == Handling(m) && e'.acts == e.acts
       else e'.loop == Polling && e'.acts == e.acts + reaction && Puts(e'.acts) == Puts(e.acts)
  }

  lemma NotificationReacts(e: Engine, m: Message, tr: Translation)
    requires e.loop.Polling?
    ensures Reacted(e, BeginHandling(e.(log := e.log + [m]), m, tr), m, tr.Update?, tr.Crash?,
                    NotificationReaction(m.corrId, tr))
  {
    PutsAppend(e.acts, Tell(Ack(m.corrId)));
  }

  lemma OtherReacts(e: Engine, corrIds: set<CorrId>, m: Message)
    requires e.loop.Polling? && !IsNotification(m.t)
    ensures Reacted(e, Receive(e, corrIds, m).0, m, false, false, Reaction(m))
  {
    var e' := Receive(e, corrIds, m).0;
    if m.t == PingRequest {
      PutsAppend(e.acts, Tell(Pong(m.corrId)));
      assert e'.acts == e.acts + Reaction(m);
    } else {
      assert e' == e.(log := e.log + [m]) && Reaction(m) == [];
      assert e.acts + [] == e.acts;
    }
  }

  lemma ReactedKeepsFaithful(s: State, s': State, m: Message, toHandle: bool)
    requires LoopFaithful(s) && s.engine.loop.Polling?
    requires Reacted(s.engine, s'.engine, m, toHandle, Crashes(m), Reaction(m)) && s'.consumed == s.consumed
    requires toHandle ==> IsNotification(m.t) && Translate(m).Update?
    ensures LoopFaithful(s')
  {
    var log, e' := s.engine.log, s'.engine;
    assert HandledLog(s.engine) == log && (log + [m])[..|log|] == log;
    if e'.loop.Polling? {
      ReactionsAppend(log, m);
      assert HandledLog(e') == log + [m];
    } else {
      assert HandledLog(e') == log;
    }
  }

  lemma ReceiveKeepsFaithful(s: State, m: Message)
    requires LoopFaithful(s) && s.engine.loop.Polling?
    ensures LoopFaithful(Next(s, FromValidator(m)))
  {
    var toHandle := IsNotification(m.t) && Translate(m).Update?;
    if IsNotification(m.t) {
      NotificationReacts(s.engine, m, Translate(m));
    } else {
      OtherReacts(s.engine, s.service.corrIds, m);
    }
    ReactedKeepsFaithful(s, Next(s, FromValidator(m)), m, toHandle);
  }

  lemma PushReacts(e: Engine, m: Message, u: Update)
    requires e.log != [] && e.log[|e.log| - 1] == m && IsNotification(m.t) && Translate(m) == Update(u)
    requires e.acts == Reactions(e.log[..|e.log| - 1])
    ensures Push(e, m, u).acts == Reactions(e.log) && Puts(Push(e, m, u).acts) == Puts(e.acts) + [u]
  {
    assert Reaction(m) == [Put(u), Tell(Ack(m.corrId))];
    PutsAppendTwo(e.acts, Put(u), Tell(Ack(m.corrId)));
  }

  lemma PollingIsFaithful(s: State)
    requires s.engine.loop.Polling? && NoneCrashes(s.engine.log)
    requires s.engine.acts == Reactions(s.engine.log) && s.consumed + s.engine.channel == Puts(s.engine.acts)
    requires |s.engine.channel| <= CHANNEL_CAPACITY
    ensures LoopFaithful(s)
  {
  }

  lemma PushKeepsFaithful(s: State, m: Message, u: Update)
    requires LoopFaithful(s) && s.engine.loop == Handling(m) && |s.engine.channel| < CHANNEL_CAPACITY
    requires Translate(m) == Update(u)
    ensures LoopFaithful(s.(engine := Push(s.engine, m, u)))
  {
    var e := s.engine;
    PushReacts(e, m, u);
    NoneCrashesSnoc(e.log);
    assert s.consumed + (e.channel + [u]) == (s.consumed + e.channel) + [u];
    PollingIsFaithful(s.(engine := Push(e, m, u)));
  }

  lemma ShutdownKeepsFaithful(s: State)
    requires LoopFaithful(s) && s.engine.loop.Closing? && |s.engine.channel| < CHANNEL_CAPACITY
    ensures LoopFaithful(s.(engine := Closed(s.engine)))
  {
    var e := s.engine;
    PutsAppendTwo(e.acts, Put(UpdateShutdown), Close);
    assert e.acts == Reactions(e.log);
    assert s.consumed + (e.channel + [UpdateShutdown]) == (s.consumed + e.channel) + [UpdateShutdown];
  }

  lemma TakeKeepsFaithful(s: State)
    requires LoopFaithful(s) && s.engine.channel != []
    ensures LoopFaithful(Next(s, TakeUpdate))
  {
    var e, e' := s.engine, Next(s, TakeUpdate).engine;
    assert s.consumed + e.channel == s.consumed + [e.channel[0]] + e.channel[1..];
    assert HandledLog(e') == HandledLog(e);
  }

  lemma CommandKeepsFaithful(s: State, command: string)
    requires LoopFaithful(s) && s.engine.loop.Polling?
    ensures LoopFaithful(s.(engine := ReceiveShutdown(s.engine, command)))
  {
  }

  lemma NextKeepsFaithful(s: State, step: Step)
    requires LoopFaithful(s)
    ensures LoopFaithful(Next(s, step))
  {
    match step
    case FromValidator(m) =>
      if s.engine.loop.Polling? { ReceiveKeepsFaithful(s, m); }
    case PushUpdate =>
      var e := s.engine;
      if e.loop.Handling? && |e.channel| < CHANNEL_CAPACITY { PushKeepsFaithful(s, e.loop.m, Translate(e.loop.m).u); }
    case PushShutdown =>
      if s.engine.loop.Closing? && |s.engine.channel| < CHANNEL_CAPACITY { ShutdownKeepsFaithful(s); }
    case TakeUpdate =>
      if s.engine.channel != [] { TakeKeepsFaithful(s); }
    case Command(command) =>
      if s.engine.loop.Polling? { CommandKeepsFaithful(s, command); }
    case _ =>
      // the service's own steps
      assert Next(s, step).engine == s.engine && Next(s, step).consumed == s.consumed;
  }

  lemma {:induction false} RunsAreFaithful(steps: seq<Step>)
    ensures LoopFaithful(Run(steps))
    decreases |steps|
  {
    if steps != [] {
      RunsAreFaithful(steps[..|steps| - 1]);
      NextKeepsFaithful(Run(steps[..|steps| - 1]), steps[|steps| - 1]);
    }
  }

  /** The translations of the decodable notifications, in arrival order. */
  ghost function Translations(log: seq<Message>): seq<Update> {
    if log == [] then []
    else
      var m := log[|log| - 1];
      Translations(log[..|log| - 1]) + if IsNotification(m.t) && Translate(m).Update? then [Translate(m).u] else []
  }

  lemma {:induction false} PutsOfReactions(log: seq<Message>)
    ensures Puts(Reactions(log)) == Translations(log)
    decreases |log|
  {
    if log != [] {
      var front, m := log[..|log| - 1], log[|log| - 1];
      PutsOfReactions(front);
      var acts := Reactions(front);
      if IsNotification(m.t) && Translate(m).Update? {
        PutsAppendTwo(acts, Put(Translate(m).u), Tell(Ack(m.corrId)));
      } else {
        PutsAppend(acts, Tell(Ack(m.corrId)));
        PutsAppend(acts, Tell(Pong(m.corrId)));
        assert acts + [] == acts;
      }
    }
  }

  /** In every run the implementation sees exactly the translations of the
      decodable notifications, in arrival order, and a shutdown update only last. */
  lemma UpdatesAreTranslations(steps: seq<Step>)
    ensures var s := Run(steps);
            s.consumed + s.engine.channel
            == Translations(HandledLog(s.engine)) + if HasClosed(s.engine) then [UpdateShutdown] else []
  {
    RunsAreFaithful(steps);
    var e := Run(steps).engine;
    PutsOfReactions(HandledLog(e));
    if e.loop.Finished? && e.acts == Reactions(e.log) + [Put(UpdateShutdown), Close] {
      PutsAppendTwo(Reactions(e.log), Put(UpdateShutdown), Close);
    } else {
      NoCloseInReactions(HandledLog(e));
    }
  }

  lemma {:induction false} NoCloseInReactions(log: seq<Message>)
    ensures Close !in Reactions(log)
    decreases |log|
  {
    if log != [] {
      NoCloseInReactions(log[..|log| - 1]);
    }
  }

  lemma FinishedStep(s: State, step: Step)
    requires s.engine.loop.Finished?
    ensures Next(s, step).engine.acts == s.engine.acts && Next(s, step).engine.loop.Finished?
  {
  }

  lemma {:induction false} FinishedStaysFinished(steps: seq<Step>, more: seq<Step>)
    requires Run(steps).engine.loop.Finished?
    ensures Run(steps + more).engine.acts == Run(steps).engine.acts && Run(steps + more).engine.loop.Finished?
    decreases |more|
  {
    if more == [] {
      assert steps + more == steps;
    } else {
      var n := |more| - 1;
      FinishedStaysFinished(steps, more[..n]);
      assert (steps + more)[..|steps| + n] == steps + more[..n];
      FinishedStep(Run(steps + more[..n]), more[n]);
    }
  }

  /** Once the channel is closed nothing is ever put on it or told again. */
  lemma NothingAfterClose(steps: seq<Step>, more: seq<Step>)
    requires HasClosed(Run(steps).engine)
    ensures Run(steps + more).engine.acts == Run(steps).engine.acts
  {
    RunsAreFaithful(steps);
    NoCloseInReactions(HandledLog(Run(steps).engine));
    FinishedStaysFinished(steps, more);
  }

  /** In every run the loop has ended the process exactly if one of the messages it
      received is a notification that does so; it is then the last one received. */
  lemma CrashedIff(steps: seq<Step>)
    ensures var e := Run(steps).engine;
            && (e.loop.Crashed? <==> exists m :: m in e.log && Crashes(m))
            && (e.loop.Crashed? ==> e.log != [] && Crashes(e.log[|e.log| - 1]))
            && forall i :: 0 <= i < |e.log| - 1 ==> !Crashes(e.log[i])
  {
    RunsAreFaithful(steps);
    OnlyLastCrashes(Run(steps));
  }

  lemma OnlyLastCrashes(s: State)
    requires LoopFaithful(s)
    ensures var e := s.engine;
            && (e.loop.Crashed? <==> exists m :: m in e.log && Crashes(m))
            && (e.loop.Crashed? ==> e.log != [] && Crashes(e.log[|e.log| - 1]))
            && forall i :: 0 <= i < |e.log| - 1 ==> !Crashes(e.log[i])
  {
    var e := s.engine;
    forall i | 0 <= i < |HandledLog(e)|
      ensures !Crashes(e.log[i])
    {
      assert HandledLog(e)[i] in HandledLog(e);
    }
  }

  /** A peer-connected notification without peer info, read in any polling state,
      ends the process with nothing put and nothing acknowledged. */
  lemma PeerWithoutInfoCrashes(steps: seq<Step>, c: CorrId)
    requires Run(steps).engine.loop.Polling?
    ensures var s, s' := Run(steps), Run(steps + [FromValidator(Message(PeerConnected, c, PeerInfo(None)))]);
            s'.engine.loop.Crashed? && s'.engine.acts == s.engine.acts && s'.engine.channel == s.engine.channel
  {
    RunSnoc(steps, FromValidator(Message(PeerConnected, c, PeerInfo(None))));
  }

  /** So does a peer message whose header does not decode. */
  lemma HeaderlessPeerMessageCrashes(steps: seq<Step>, c: CorrId, sig: seq<Byte>, body: seq<Byte>, sender: seq<Byte>)
    requires Run(steps).engine.loop.Polling?
    ensures var m := Message(PeerMessage, c, FromPeer(None, sig, body, sender));
            var s, s' := Run(steps), Run(steps + [FromValidator(m)]);
            s'.engine.loop.Crashed? && s'.engine.acts == s.engine.acts && s'.engine.channel == s.engine.channel
  {
    RunSnoc(steps, FromValidator(Message(PeerMessage, c, FromPeer(None, sig, body, sender))));
  }

  lemma RunSnoc(steps: seq<Step>, step: Step)
    ensures Run(steps + [step]) == Next(Run(steps), step)
  {
    assert (steps + [step])[..|steps|] == steps;
  }

  // ---- The channel unblocks the loop -------------------------------------------------

  lemma TakeMakesRoom(s: State)
    requires LoopFaithful(s)
    ensures var e, e' := s.engine, Next(s, TakeUpdate).engine;
            e'.loop == e.loop && e'.log == e.log && |e'.channel| < CHANNEL_CAPACITY
  {
  }

  /** A loop blocked on the full channel, with a notification in hand or in the middle
      of a shutdown, goes on after one receive of the implementation: the notification
      is dealt with, or the channel closed.  The channel holds two updates. */
  lemma ReceiveUnblocksLoop(steps: seq<Step>)
    ensures var s, s1 := Run(steps), Next(Run(steps), TakeUpdate);
            && (s.engine.loop.Handling? ==>
                  var e' := Next(s1, PushUpdate).engine;
                  e'.loop.Polling? && HandledLog(e') == s.engine.log)
            && (s.engine.loop.Closing? ==> HasClosed(Next(s1, PushShutdown).engine))
            && (|s.engine.channel| < 2 && s.engine.loop.Handling? ==> Next(s, PushUpdate).engine.loop.Polling?)
            && |s.engine.channel| <= 2
  {
    RunsAreFaithful(steps);
    TakeMakesRoom(Run(steps));
  }

  // ---- Shutdown commands ------------------------------------------------------------

  /** Among `steps` is a command, known or unknown, that the loop read. */
  ghost predicate CommandRead(steps: seq<Step>, known: bool) {
    exists i :: 0 <= i < |steps| && steps[i].Command? && Known(steps[i].command) == known
                && Run(steps[..i]).engine.loop.Polling?
  }

  ghost predicate ShuttingDown(e: Engine) {
    e.loop.Closing? || HasClosed(e)
  }

  lemma CommandReadSnoc(steps: seq<Step>, known: bool)
    requires steps != []
    ensures var front, step := steps[..|steps| - 1], steps[|steps| - 1];
            CommandRead(steps, known) <==>
            || CommandRead(front, known)
            || (step.Command? && Known(step.command) == known && Run(front).engine.loop.Polling?)
  {
    var front, n := steps[..|steps| - 1], |steps| - 1;
    assert forall i :: 0 <= i < n ==> steps[..i] == front[..i] && steps[i] == front[i];
    if CommandRead(front, known) {
      var i :| 0 <= i < |front| && front[i].Command? && Known(front[i].command) == known
               && Run(front[..i]).engine.loop.Polling?;
      assert steps[i] == front[i] && steps[..i] == front[..i];
    }
  }

  lemma ClosedOnlyWhenFinished(s: State)
    requires LoopFaithful(s)
    ensures HasClosed(s.engine) ==> s.engine.loop.Finished?
  {
    NoCloseInReactions(HandledLog(s.engine));
  }

  lemma LoopStep(s: State, step: Step)
    ensures var e, e' := s.engine, Next(s, step).engine;
            var read := step.Command? && e.loop.Polling?;
            && (e'.loop.Closing? <==> (e.loop.Closing? && !e'.loop.Finished?) || (read && Known(step.command)))
            && (e'.loop.Finished?
                <==> e.loop.Finished? || (read && !Known(step.command)) || (e.loop.Closing? && !e'.loop.Closing?))
            && (e.loop.Closing? && !e'.loop.Closing? ==> HasClosed(e'))
            && (read || e.loop.Finished? ==> e'.acts == e.acts)
  {
  }

  lemma ShutdownStep(s: State, step: Step)
    requires LoopFaithful(s)
    ensures var e, e' := s.engine, Next(s, step).engine;
            var read := step.Command? && e.loop.Polling?;
            && (ShuttingDown(e') <==> ShuttingDown(e) || (read && Known(step.command)))
            && (e'.loop.Finished? && !HasClosed(e')
                <==> (e.loop.Finished? && !HasClosed(e)) || (read && !Known(step.command)))
  {
    ClosedOnlyWhenFinished(s);
    NextKeepsFaithful(s, step);
    ClosedOnlyWhenFinished(Next(s, step));
    LoopStep(s, step);
  }

  /** In every run the loop is closing or has put the shutdown update and closed the
      channel exactly if it read a known command, and has finished without closing
      the channel exactly if it read an unknown one. */
  lemma {:induction false} ShutsDownIff(steps: seq<Step>)
    ensures var e := Run(steps).engine;
            && (ShuttingDown(e) <==> CommandRead(steps, true))
            && (e.loop.Finished? && !HasClosed(e) <==> CommandRead(steps, false))
    decreases |steps|
  {
    if steps != [] {
      var front, step := steps[..|steps| - 1], steps[|steps| - 1];
      ShutsDownIff(front);
      RunsAreFaithful(front);
      ShutdownStep(Run(front), step);
      CommandReadSnoc(steps, true);
      CommandReadSnoc(steps, false);
    }
  }

  // ---- Acknowledgements -----------------------------------------------------------

  lemma PrefixOfConcat(a: seq<Act>, b: seq<Act>, c: seq<Act>)
    requires |a| <= |b| && b[..|a|] == a
    ensures |a| <= |b + c| && (b + c)[..|a|] == a
  {
    assert (b + c)[..|a|] == b[..|a|];
  }

  lemma {:induction false} ReactionsPrefix(log: seq<Message>, i: nat)
    requires i <= |log|
    ensures |Reactions(log[..i])| <= |Reactions(log)|
    ensures Reactions(log)[..|Reactions(log[..i])|] == Reactions(log[..i])
    decreases |log|
  {
    if i == |log| {
      assert log[..i] == log;
    } else {
      var front := log[..|log| - 1];
      ReactionsPrefix(front, i);
      assert front[..i] == log[..i];
      PrefixOfConcat(Reactions(log[..i]), Reactions(front), Reaction(log[|log| - 1]));
    }
  }

  /** The acts for the i-th message are in one piece, after those for the messages
      before it. */
  lemma ReactionsSegment(log: seq<Message>, i: nat)
    requires i < |log|
    ensures var from, to := |Reactions(log[..i])|, |Reactions(log[..i + 1])|;
            from <= to <= |Reactions(log)| && Reactions(log)[from..to] == Reaction(log[i])
  {
    assert log[..i + 1] == log[..i] + [log[i]];
    ReactionsAppend(log[..i], log[i]);
    ReactionsPrefix(log, i + 1);
    SegmentOfConcat(Reactions(log[..i]), Reaction(log[i]), Reactions(log));
  }

  lemma SegmentOfConcat(a: seq<Act>, b: seq<Act>, c: seq<Act>)
    requires |a + b| <= |c| && c[..|a + b|] == a + b
    ensures c[|a|..|a + b|] == b
  {
    assert c[|a|..|a + b|] == c[..|a + b|][|a|..];
  }

  /** In every run the i-th message, if it is a notification that has been dealt
      with, is acknowledged under its own id, directly after its update; among the
      acts between those for the messages before it and those for the messages after
      it, that is the only thing told. */
  lemma NotificationsAreAcknowledged(steps: seq<Step>, i: nat) returns (k: nat)
    requires var log := HandledLog(Run(steps).engine);
             i < |log| && IsNotification(log[i].t)
    ensures var acts, log := Run(steps).engine.acts, HandledLog(Run(steps).engine);
            var from, to := |Reactions(log[..i])|, |Reactions(log[..i + 1])|;
            && from <= k < to <= |acts| && acts[k] == Tell(Message(NotifyAck, log[i].corrId, Bytes([])))
            && (Translate(log[i]).Update? ==> k > from && acts[k - 1] == Put(Translate(log[i]).u))
            && (forall j :: from <= j < to && acts[j].Tell? ==> j == k)
  {
    RunsAreFaithful(steps);
    var e := Run(steps).engine;
    var log := HandledLog(e);
    assert log[i] in log;
    ReactionsSegment(log, i);
    assert e.acts[..|Reactions(log)|] == Reactions(log);
    k := AckInSegment(e.acts, Reactions(log), log[i], |Reactions(log[..i])|, |Reactions(log[..i + 1])|);
  }

  lemma AckInSegment(acts: seq<Act>, reactions: seq<Act>, m: Message, from: nat, to: nat) returns (k: nat)
    requires IsNotification(m.t) && !Crashes(m)
    requires from <= to <= |reactions| <= |acts| && acts[..|reactions|] == reactions
    requires reactions[from..to] == Reaction(m)
    ensures from <= k < to && acts[k] == Tell(Ack(m.corrId))
    ensures Translate(m).Update? ==> k > from && acts[k - 1] == Put(Translate(m).u)
    ensures forall j :: from <= j < to && acts[j].Tell? ==> j == k
  {
    k := to - 1;
    assert |Reaction(m)| == to - from;
    forall j | from <= j < to
      ensures acts[j] == Reaction(m)[j - from]
    {
      assert acts[j] == acts[..|reactions|][j] == reactions[from..to][j - from];
    }
  }

  ghost function AckCount(acts: seq<Act>, c: CorrId): nat {
    if acts == [] then 0
    else AckCount(acts[..|acts| - 1], c) + if acts[|acts| - 1] == Tell(Message(NotifyAck, c, Bytes([]))) then 1 else 0
  }

  ghost function NotificationCount(log: seq<Message>, c: CorrId): nat {
    if log == [] then 0
    else
      var m := log[|log| - 1];
      NotificationCount(log[..|log| - 1], c) + if IsNotification(m.t) && m.corrId == c then 1 else 0
  }

  lemma AckCountAppend(acts: seq<Act>, a: Act, c: CorrId)
    ensures AckCount(acts + [a], c) == AckCount(acts, c) + if a == Tell(Ack(c)) then 1 else 0
  {
    assert (acts + [a])[..|acts|] == acts;
  }

  lemma AckCountAppendTwo(acts: seq<Act>, a: Act, b: Act, c: CorrId)
    requires !a.Tell?
    ensures AckCount(acts + [a, b], c) == AckCount(acts, c) + if b == Tell(Ack(c)) then 1 else 0
  {
    AckCountAppend(acts, a, c);
    AckCountAppend(acts + [a], b, c);
    assert acts + [a, b] == acts + [a] + [b];
  }

  lemma {:induction false} AcksOfReactions(log: seq<Message>, c: CorrId)
    requires NoneCrashes(log)
    ensures AckCount(Reactions(log), c) == NotificationCount(log, c)
    decreases |log|
  {
    if log != [] {
      var front, m := log[..|log| - 1], log[|log| - 1];
      assert m in log && forall x :: x in front ==> x in log;
      AcksOfReactions(front, c);
      AcksOfReaction(Reactions(front), m, c);
    }
  }

  lemma AcksOfReaction(acts: seq<Act>, m: Message, c: CorrId)
    requires !Crashes(m)
    ensures AckCount(acts + Reaction(m), c) == AckCount(acts, c) + if IsNotification(m.t) && m.corrId == c then 1 else 0
  {
    if IsNotification(m.t) && Translate(m).Update? {
      AckCountAppendTwo(acts, Put(Translate(m).u), Tell(Ack(m.corrId)), c);
    } else if IsNotification(m.t) {
      AckCountAppend(acts, Tell(Ack(m.corrId)), c);
    } else {
      AckCountAppend(acts, Tell(Pong(m.corrId)), c);
      assert acts + [] == acts;
    }
  }

  /** In every run the validator has been sent exactly as many acknowledgements under
      an id as notifications under that id have been dealt with. */
  lemma AcksMatchNotifications(steps: seq<Step>, c: CorrId)
    ensures AckCount(Run(steps).engine.acts, c) == NotificationCount(HandledLog(Run(steps).engine), c)
  {
    RunsAreFaithful(steps);
    var e := Run(steps).engine;
    AcksOfReactions(HandledLog(e), c);
    if e.acts != Reactions(HandledLog(e)) {
      AckCountAppendTwo(Reactions(e.log), Put(UpdateShutdown), Close, c);
    }
  }

  // ---- Pings -------------------------------------------------------------------------

  ghost function PongCount(acts: seq<Act>, c: CorrId): nat {
    if acts == [] then 0
    else
      PongCount(acts[..|acts| - 1], c)
      + if acts[|acts| - 1] == Tell(Message(PingResponse, c, Bytes([]))) then 1 else 0
  }

  ghost function PingCount(log: seq<Message>, c: CorrId): nat {
    if log == [] then 0
    else
      var m := log[|log| - 1];
      PingCount(log[..|log| - 1], c) + if m.t == PingRequest && m.corrId == c then 1 else 0
  }

  lemma PongCountAppend(acts: seq<Act>, a: Act, c: CorrId)
    ensures PongCount(acts + [a], c)
         == PongCount(acts, c) + if a == Tell(Message(PingResponse, c, Bytes([]))) then 1 else 0
  {
    assert (acts + [a])[..|acts|] == acts;
  }

  lemma PongCountAppendTwo(acts: seq<Act>, a: Act, b: Act, c: CorrId)
    requires !a.Tell? && (b.Tell? ==> b.m.t != PingResponse)
    ensures PongCount(acts + [a, b], c) == PongCount(acts, c)
  {
    PongCountAppend(acts, a, c);
    PongCountAppend(acts + [a], b, c);
    assert acts + [a, b] == acts + [a] + [b];
  }

  lemma PongsOfReaction(acts: seq<Act>, m: Message, c: CorrId)
    ensures PongCount(acts + Reaction(m), c)
         == PongCount(acts, c) + if m.t == PingRequest && m.corrId == c then 1 else 0
  {
    if IsNotification(m.t) {
      match Translate(m)
      case Update(u) => PongCountAppendTwo(acts, Put(u), Tell(Ack(m.corrId)), c);
      case Skip => PongCountAppend(acts, Tell(Ack(m.corrId)), c);
      case Crash => assert acts + [] == acts;
    } else {
      PongCountAppend(acts, Tell(Pong(m.corrId)), c);
      assert acts + [] == acts;
    }
  }

  lemma {:induction false} PongsOfReactions(log: seq<Message>, c: CorrId)
    ensures PongCount(Reactions(log), c) == PingCount(log, c)
    decreases |log|
  {
    if log != [] {
      PongsOfReactions(log[..|log| - 1], c);
      PongsOfReaction(Reactions(log[..|log| - 1]), log[|log| - 1], c);
    }
  }

  /** In every run the validator has been sent exactly as many ping responses under an id
      as pings under that id have been received. */
  lemma PongsMatchPings(steps: seq<Step>, c: CorrId)
    ensures PongCount(Run(steps).engine.acts, c) == PingCount(HandledLog(Run(steps).engine), c)
  {
    RunsAreFaithful(steps);
    var e := Run(steps).engine;
    PongsOfReactions(HandledLog(e), c);
    if e.acts != Reactions(HandledLog(e)) {
      PongCountAppendTwo(Reactions(e.log), Put(UpdateShutdown), Close, c);
    }
  }

  // ---- Requests reach the validator ----------------------------------------------

  /** Every id used by a call is on exactly one request, sent on or waiting. */
  ghost predicate RequestsKept(s: State) {
    var all := s.toValidator + s.requests;
    && (forall i :: 0 <= i < |all| ==> all[i].corrId in s.service.used)
    && (forall c :: c in s.service.used ==> exists i :: 0 <= i < |all| && all[i].corrId == c)
    && (forall i, j :: 0 <= i < j < |all| ==> all[i].corrId != all[j].corrId)
  }

  lemma StartCallKeepsRequests(s: State, s': State, c: CorrId)
    requires RequestsKept(s) && c !in s.service.used && s'.service.used == s.service.used + {c}
    requires s'.toValidator == s.toValidator && |s'.requests| == |s.requests| + 1
    requires s'.requests[..|s.requests|] == s.requests && s'.requests[|s.requests|].corrId == c
    ensures RequestsKept(s')
  {
    var all, all' := s.toValidator + s.requests, s'.toValidator + s'.requests;
    assert all' == all + [s'.requests[|s.requests|]];
    forall b | b in s'.service.used
      ensures exists i :: 0 <= i < |all'| && all'[i].corrId == b
    {
      if b in s.service.used {
        var i :| 0 <= i < |all| && all[i].corrId == b;
        assert all'[i].corrId == b;
      } else {
        assert all'[|all|].corrId == b;
      }
    }
  }

  lemma NextKeepsRequests(s: State, step: Step)
    requires RequestsKept(s)
    ensures RequestsKept(Next(s, step))
  {
    var s' := Next(s, step);
    if step.StartCall? {
      if s'.requests != s.requests {
        StartCallKeepsRequests(s, s', step.c);
      }
    } else {
      assert s'.toValidator + s'.requests == s.toValidator + s.requests;
      assert s'.service.used == s.service.used;
    }
  }

  /** In every run the requests passed on and those waiting are, without loss or
      repetition, the requests of the calls made. */
  lemma {:induction false} RunsKeepRequests(steps: seq<Step>)
    ensures RequestsKept(Run(steps))
    decreases |steps|
  {
    if steps != [] {
      RunsKeepRequests(steps[..|steps| - 1]);
      NextKeepsRequests(Run(steps[..|steps| - 1]), steps[|steps| - 1]);
    }
  }

  /** The request a step adds: that of a call it starts. */
  ghost function NewRequest(s: State, step: Step): seq<Message> {
    if step.StartCall? && s.service.call.NoCall? && step.c != "" && step.c !in s.service.used
    then [step.request.(corrId := step.c)] else []
  }

  /** The requests of the calls made in a run, in order. */
  ghost function Asked(steps: seq<Step>): seq<Message> {
    if steps == [] then []
    else Asked(steps[..|steps| - 1]) + NewRequest(Run(steps[..|steps| - 1]), steps[|steps| - 1])
  }

  lemma RequestStep(s: State, step: Step)
    ensures var s' := Next(s, step);
            s'.toValidator + s'.requests == s.toValidator + s.requests + NewRequest(s, step)
  {
    var s' := Next(s, step);
    if step.StartCall? {
      assert s'.toValidator == s.toValidator && s'.requests == s.requests + NewRequest(s, step);
    } else {
      assert s'.toValidator + s'.requests == s.toValidator + s.requests;
    }
  }

  /** In every run the validator gets those requests unchanged and in order. */
  lemma {:induction false} RequestsInOrder(steps: seq<Step>)
    ensures Run(steps).toValidator + Run(steps).requests == Asked(steps)
    decreases |steps|
  {
    if steps != [] {
      RequestsInOrder(steps[..|steps| - 1]);
      RequestStep(Run(steps[..|steps| - 1]), steps[|steps| - 1]);
    }
  }

  /** The request `m` is n-th of those waiting, or with the validator if n is negative. */
  ghost predicate Passing(s: State, m: Message, n: int) {
    if n >= 0 then n < |s.requests| && s.requests[n] == m else m in s.toValidator
  }

  /** The turns in which the loop, polling, reads from the service. */
  ghost function ServiceReads(s: State, steps: seq<Step>): nat {
    if steps == [] then 0
    else
      var front, step := steps[..|steps| - 1], steps[|steps| - 1];
      ServiceReads(s, front) + if step.FromService? && RunFrom(s, front).engine.loop.Polling? then 1 else 0
  }

  lemma ReadPassesOne(s: State, m: Message, n: int)
    requires Passing(s, m, n + 1) && s.engine.loop.Polling?
    ensures Passing(Next(s, FromService), m, n)
  {
  }

  lemma OtherStepsKeepWaiting(s: State, step: Step, m: Message, n: int)
    requires Passing(s, m, n) && !(step.FromService? && s.engine.loop.Polling?)
    ensures Passing(Next(s, step), m, n)
  {
  }

  /** On every schedule: the n-th waiting request is unchanged and in its place until the
      polling loop has read n times from the service, and one read later it is with the
      validator. */
  lemma {:induction false} RequestReachesValidator(s: State, steps: seq<Step>, m: Message, n: nat, left: int)
    requires Passing(s, m, n) && left == n - ServiceReads(s, steps)
    ensures Passing(RunFrom(s, steps), m, left)
    decreases |steps|
  {
    if steps != [] {
      var front, step := steps[..|steps| - 1], steps[|steps| - 1];
      if step.FromService? && RunFrom(s, front).engine.loop.Polling? {
        RequestReachesValidator(s, front, m, n, left + 1);
        ReadPassesOne(RunFrom(s, front), m, left);
      } else {
        RequestReachesValidator(s, front, m, n, left);
        OtherStepsKeepWaiting(RunFrom(s, front), step, m, left);
      }
    }
  }

  lemma StartedWaits(s: State, c: CorrId, request: Message, expected: Type)
    requires s.service.call.NoCall? && c != "" && c !in s.service.used
    ensures var s' := Next(s, StartCall(c, request, expected));
            Passing(s', request.(corrId := c), |s.requests|) && s'.service.call == Sent(c, expected)
  {
  }

  /** The request of a call reaches the validator under the call's id on every schedule in
      which the polling loop reads it and those before it. */
  lemma CallReachesValidator(steps: seq<Step>, c: CorrId, request: Message, expected: Type, more: seq<Step>)
    requires var v := Run(steps).service; v.call.NoCall? && c != "" && c !in v.used
    ensures ServiceReads(Next(Run(steps), StartCall(c, request, expected)), more) > |Run(steps).requests| ==>
              request.(corrId := c) in Run(steps + [StartCall(c, request, expected)] + more).toValidator
  {
    var s, n := Next(Run(steps), StartCall(c, request, expected)), |Run(steps).requests|;
    StartedWaits(Run(steps), c, request, expected);
    RequestReachesValidator(s, more, request.(corrId := c), n, n - ServiceReads(s, more));
    RunSnoc(steps, StartCall(c, request, expected));
    RunContinues(steps + [StartCall(c, request, expected)], more);
  }

  // ---- Calls get their own responses ------------------------------------------

  ghost predicate IsCurrent(v: Service, c: CorrId) {
    !v.call.NoCall? && v.call.c == c
  }

  /** A forwarded message is a validator message, neither notification nor ping,
      for an id the service has used; if the id belongs to the call in progress,
      it arrived after that call recorded it. */
  ghost predicate ForwardedOk(s: State, f: Forwarded) {
    && f.at < |s.engine.log| && s.engine.log[f.at] == f.msg
    && !IsNotification(f.msg.t) && f.msg.t != PingRequest
    && f.msg.corrId in s.service.used
    && (IsCurrent(s.service, f.msg.corrId) ==> s.service.call.Waiting? && s.service.call.since <= f.at)
  }

  ghost predicate CompletedOk(s: State, r: Completed) {
    && r.response.msg.corrId == r.c && r.c in s.service.used && !IsCurrent(s.service, r.c)
    && r.since <= r.response.at < |s.engine.log| && s.engine.log[r.response.at] == r.response.msg
    && !IsNotification(r.response.msg.t) && r.response.msg.t != PingRequest
    && (r.ok <==> r.response.msg.t == r.expected && !r.response.msg.content.Undecodable?)
  }

  ghost predicate CallsMatched(s: State) {
    var v := s.service;
    && (!v.call.NoCall? ==> v.call.c in v.used && v.call.c != "" && v.call.c !in v.stash)
    && v.corrIds <= v.used
    && (v.call.Sent? ==> v.call.c !in v.corrIds)
    && (v.call.Waiting? ==> v.call.c in v.corrIds && v.call.since <= |s.engine.log|)
    && (!s.engine.loop.Finished? ==> v.corrIds == if v.call.Waiting? then {v.call.c} else {})
    && (forall f :: f in v.inbox ==> ForwardedOk(s, f))
    && (forall c :: c in v.stash ==> v.stash[c].msg.corrId == c && ForwardedOk(s, v.stash[c]))
    && (forall r :: r in v.results ==> CompletedOk(s, r))
    && (forall i, j :: 0 <= i < j < |v.results| ==> v.results[i].c != v.results[j].c)
  }

  /** Growing the log keeps what is said about its messages. */
  lemma LogGrowthKeepsMatched(s: State, s': State)
    requires CallsMatched(s) && s'.service == s.service
    requires |s.engine.log| <= |s'.engine.log| && s'.engine.log[..|s.engine.log|] == s.engine.log
    requires s.engine.loop.Finished? ==> s'.engine.loop.Finished?
    ensures CallsMatched(s')
  {
    assert forall i :: 0 <= i < |s.engine.log| ==> s'.engine.log[i] == s'.engine.log[..|s.engine.log|][i];
    forall f | ForwardedOk(s, f)
      ensures ForwardedOk(s', f)
    {
    }
    forall r | CompletedOk(s, r)
      ensures CompletedOk(s', r)
    {
    }
  }

  lemma FromValidatorKeepsMatched(s: State, m: Message)
    requires CallsMatched(s) && s.engine.loop.Polling?
    ensures CallsMatched(Next(s, FromValidator(m)))
  {
    var s' := Next(s, FromValidator(m));
    assert s'.engine.log == s.engine.log + [m];
    var s1 := s.(engine := s'.engine);
    LogGrowthKeepsMatched(s, s1);
    if s'.service != s.service {
      forall f | ForwardedOk(s1, f)
        ensures ForwardedOk(s', f)
      {
      }
      forall r | CompletedOk(s1, r)
        ensures CompletedOk(s', r)
      {
      }
      assert ForwardedOk(s', Forwarded(m, |s.engine.log|));
    }
  }

  /** Changes to the current call that keep every matched message matched. */
  lemma CallChangeKeepsMessages(s: State, s': State)
    requires s'.engine == s.engine && s.service.used <= s'.service.used
    requires forall c :: c in s.service.used && IsCurrent(s'.service, c) ==>
               IsCurrent(s.service, c) && s'.service.call.Waiting?
               && if s.service.call.Waiting? then s'.service.call.since == s.service.call.since else true
    requires s.service.call.Sent? ==> forall f :: ForwardedOk(s, f) ==> !IsCurrent(s.service, f.msg.corrId)
    ensures forall f :: ForwardedOk(s, f) ==> ForwardedOk(s', f)
    ensures forall r :: CompletedOk(s, r) ==> CompletedOk(s', r)
  {
  }

  lemma ServiceTurnKeepsMatched(s: State)
    requires CallsMatched(s) && s.service.call.Waiting?
    ensures CallsMatched(s.(service := ServiceTurn(s.service)))
  {
    var v := s.service;
    var s' := s.(service := ServiceTurn(v));
    CallChangeKeepsMessages(s, s');
    if v.inbox != [] {
      assert ForwardedOk(s, v.inbox[0]);
    }
    forall i | 0 <= i < |v.results|
      ensures v.results[i].c != v.call.c
    {
      assert CompletedOk(s, v.results[i]);
    }
  }

  lemma NextKeepsMatched(s: State, step: Step)
    requires CallsMatched(s)
    ensures CallsMatched(Next(s, step))
  {
    var s' := Next(s, step);
    match step
    case FromValidator(m) => if s.engine.loop.Polling? { FromValidatorKeepsMatched(s, m); }
    case StartCall(c, request, expected) => if s.service.call.NoCall? { CallChangeKeepsMessages(s, s'); }
    case RecordId => CallChangeKeepsMessages(s, s');
    case ServiceReceive(fails) =>
      if s.service.call.Waiting? {
        if fails && s.engine.loop.Finished? {
          CallChangeKeepsMessages(s, s');
        } else {
          ServiceTurnKeepsMatched(s);
        }
      }
    case _ => LogGrowthKeepsMatched(s, s');
  }

  lemma {:induction false} RunsAreMatched(steps: seq<Step>)
    ensures CallsMatched(Run(steps))
    decreases |steps|
  {
    if steps != [] {
      RunsAreMatched(steps[..|steps| - 1]);
      NextKeepsMatched(Run(steps[..|steps| - 1]), steps[|steps| - 1]);
    }
  }

  /** In every run each completed call was completed by a message with its own id,
      received from the validator after the call recorded that id, and was a
      success exactly if it decodes to the type expected; no two calls share an id,
      so no stale or repeated response ever completes a later call. */
  lemma CallsGetTheirOwnResponses(steps: seq<Step>, i: nat, j: nat)
    requires i < |Run(steps).service.results| && j < |Run(steps).service.results|
    ensures var s := Run(steps);
            var a, b := s.service.results[i], s.service.results[j];
            && a.response.msg.corrId == a.c
            && a.since <= a.response.at < |s.engine.log| && s.engine.log[a.response.at] == a.response.msg
            && !IsNotification(a.response.msg.t) && a.response.msg.t != PingRequest
            && (a.ok <==> a.response.msg.t == a.expected && !a.response.msg.content.Undecodable?)
            && Recorded(steps, a.c, a.expected, a.since)
            && (a.response.at == b.response.at ==> i == j)
  {
    RunsAreMatched(steps);
    RunsRecordCalls(steps);
    var s := Run(steps);
    assert CompletedOk(s, s.service.results[i]) && CompletedOk(s, s.service.results[j]);
  }

  /** In the run the call with id `c` was started expecting `expected`, and later
      recorded its id, when `since` messages had been received. */
  ghost predicate Recorded(steps: seq<Step>, c: CorrId, expected: Type, since: nat) {
    exists i :: && 0 <= i < |steps| && steps[i] == RecordId && Run(steps[..i]).service.call == Sent(c, expected)
                && |Run(steps[..i]).engine.log| == since && Started(steps[..i], c, expected)
  }

  ghost predicate Started(steps: seq<Step>, c: CorrId, expected: Type) {
    exists i :: 0 <= i < |steps| && steps[i].StartCall? && steps[i].c == c && steps[i].expected == expected
  }

  lemma StartedGrows(front: seq<Step>, step: Step, c: CorrId, expected: Type)
    requires Started(front, c, expected)
    ensures Started(front + [step], c, expected)
  {
    var i :| 0 <= i < |front| && front[i].StartCall? && front[i].c == c && front[i].expected == expected;
    assert (front + [step])[i] == front[i];
  }

  lemma RecordedGrows(front: seq<Step>, step: Step, c: CorrId, expected: Type, since: nat)
    requires Recorded(front, c, expected, since)
    ensures Recorded(front + [step], c, expected, since)
  {
    var i :| && 0 <= i < |front| && front[i] == RecordId && Run(front[..i]).service.call == Sent(c, expected)
             && |Run(front[..i]).engine.log| == since && Started(front[..i], c, expected);
    var steps := front + [step];
    assert steps[..i] == front[..i] && steps[i] == front[i];
  }

  ghost predicate CallsRecorded(steps: seq<Step>, v: Service) {
    && (v.call.Sent? ==> Started(steps, v.call.c, v.call.expected))
    && (v.call.Waiting? ==> Recorded(steps, v.call.c, v.call.expected, v.call.since))
    && (forall r :: r in v.results ==> Recorded(steps, r.c, r.expected, r.since))
  }

  lemma CallsRecordedGrows(front: seq<Step>, step: Step, v: Service)
    requires CallsRecorded(front, v)
    ensures CallsRecorded(front + [step], v)
  {
    if v.call.Sent? {
      StartedGrows(front, step, v.call.c, v.call.expected);
    }
    if v.call.Waiting? {
      RecordedGrows(front, step, v.call.c, v.call.expected, v.call.since);
    }
    forall r | r in v.results
      ensures Recorded(front + [step], r.c, r.expected, r.since)
    {
      RecordedGrows(front, step, r.c, r.expected, r.since);
    }
  }

  /** How one step can change the call in progress and the results. */
  lemma CallStep(s: State, step: Step)
    ensures var v, v' := s.service, Next(s, step).service;
            && (v'.call == v.call || v'.call.NoCall?
                || (step.StartCall? && v'.call == Sent(step.c, step.expected))
                || (step == RecordId && v.call.Sent? && v'.call == Waiting(v.call.c, v.call.expected, |s.engine.log|)))
            && (v'.results == v.results
                || (v.call.Waiting? && |v'.results| == |v.results| + 1 && v'.results[..|v.results|] == v.results
                    && var r := v'.results[|v.results|];
                       r.c == v.call.c && r.expected == v.call.expected && r.since == v.call.since))
  {
  }

  lemma StartedNow(front: seq<Step>, step: Step)
    requires step.StartCall?
    ensures Started(front + [step], step.c, step.expected)
  {
    assert (front + [step])[|front|] == step;
  }

  lemma RecordedNow(front: seq<Step>, c: CorrId, expected: Type)
    requires Run(front).service.call == Sent(c, expected) && Started(front, c, expected)
    ensures Recorded(front + [RecordId], c, expected, |Run(front).engine.log|)
  {
    var steps := front + [RecordId];
    assert steps[|front|] == RecordId && steps[..|front|] == front;
  }

  lemma CallsRecordedStep(front: seq<Step>, step: Step, v': Service)
    requires CallsRecorded(front, Run(front).service) && v' == Next(Run(front), step).service
    ensures CallsRecorded(front + [step], v')
  {
    var v := Run(front).service;
    CallStep(Run(front), step);
    CallsRecordedGrows(front, step, v);
    if v'.call != v.call && v'.call.Sent? {
      StartedNow(front, step);
    } else if v'.call != v.call && v'.call.Waiting? {
      RecordedNow(front, v.call.c, v.call.expected);
    }
  }

  /** In every run `since` is the time at which the call recorded its id, and
      `expected` the type it was started with. */
  lemma {:induction false} RunsRecordCalls(steps: seq<Step>)
    ensures CallsRecorded(steps, Run(steps).service)
    decreases |steps|
  {
    if steps != [] {
      var front, step := steps[..|steps| - 1], steps[|steps| - 1];
      RunsRecordCalls(front);
      assert steps == front + [step];
      CallsRecordedStep(front, step, Run(steps).service);
    }
  }

  // ---- Awaited calls complete -------------------------------------------------------

  /** The call `call` is waiting, and `f`, the n-th message ahead of the service, is
      the first with its id. */
  ghost predicate Pending(s: State, call: Call, f: Forwarded, n: int) {
    var v := s.service;
    && call.Waiting? && v.call == call && call.c !in v.stash
    && 0 <= n < |v.inbox| && v.inbox[n] == f && f.msg.corrId == call.c
    && forall i :: 0 <= i < n ==> v.inbox[i].msg.corrId != call.c
  }

  ghost function CompletedBy(call: Call, f: Forwarded): Completed
    requires call.Waiting?
  {
    Completed(call.c, call.expected, call.since, f, f.msg.t == call.expected && !f.msg.content.Undecodable?)
  }

  ghost function Turns(steps: seq<Step>): nat {
    if steps == [] then 0
    else Turns(steps[..|steps| - 1]) + if steps[|steps| - 1].ServiceReceive? then 1 else 0
  }

  /** A turn of the service brings the awaited response one place nearer or completes
      the call with it; any other step leaves it pending. */
  lemma PendingStep(s: State, step: Step, call: Call, f: Forwarded, n: int)
    requires Pending(s, call, f, n) && step != ServiceReceive(true)
    ensures !step.ServiceReceive? ==> Pending(Next(s, step), call, f, n)
    ensures step.ServiceReceive? && n > 0 ==> Pending(Next(s, step), call, f, n - 1)
    ensures step.ServiceReceive? && n == 0 ==>
              var v, v' := s.service, Next(s, step).service;
              && v'.call == NoCall && v'.corrIds == v.corrIds - {call.c} && v'.inbox == v.inbox[1..]
              && v'.results == v.results + [CompletedBy(call, f)]
  {
  }

  /** The response is still n turns away, or has completed the call if n is negative. */
  ghost predicate Nearing(s: State, call: Call, f: Forwarded, n: int) {
    call.Waiting? && if n >= 0 then Pending(s, call, f, n) else CompletedBy(call, f) in s.service.results
  }

  lemma NearingTurn(s: State, step: Step, call: Call, f: Forwarded, n: int)
    requires Nearing(s, call, f, n + 1) && step == ServiceReceive(false)
    ensures Nearing(Next(s, step), call, f, n)
  {
    if n + 1 >= 0 {
      PendingStep(s, step, call, f, n + 1);
    } else {
      ResultsGrow(s, step, CompletedBy(call, f));
    }
  }

  lemma NearingOther(s: State, step: Step, call: Call, f: Forwarded, n: int)
    requires Nearing(s, call, f, n) && !step.ServiceReceive?
    ensures Nearing(Next(s, step), call, f, n)
  {
    if n >= 0 {
      PendingStep(s, step, call, f, n);
    } else {
      ResultsGrow(s, step, CompletedBy(call, f));
    }
  }

  lemma ResultsGrow(s: State, step: Step, r: Completed)
    requires r in s.service.results
    ensures r in Next(s, step).service.results
  {
  }

  /** On every schedule, unless the connection is closed under the call: after as many
      turns of the service as there are messages up to the first with the call's id,
      and not before, the call is completed by that message. */
  lemma {:induction false} AwaitedResponseCompletes(
    s: State, steps: seq<Step>, call: Call, f: Forwarded, n: nat, left: int)
    requires Pending(s, call, f, n) && ServiceReceive(true) !in steps && left == n - Turns(steps)
    ensures Nearing(RunFrom(s, steps), call, f, left)
    decreases |steps|
  {
    if steps != [] {
      var front, step := steps[..|steps| - 1], steps[|steps| - 1];
      assert step in steps && forall x :: x in front ==> x in steps;
      if step.ServiceReceive? {
        AwaitedResponseCompletes(s, front, call, f, n, left + 1);
        NearingTurn(RunFrom(s, front), step, call, f, left);
      } else {
        AwaitedResponseCompletes(s, front, call, f, n, left);
        NearingOther(RunFrom(s, front), step, call, f, left);
      }
    }
  }

  /** A response to a waiting call that the engine reads completes the call on every
      schedule with enough turns: with this response, unless one with the same id was
      already ahead of it. */
  lemma ResponseCompletesCall(steps: seq<Step>, m: Message, more: seq<Step>)
    requires var s := Run(steps);
             && s.engine.loop.Polling? && s.service.call.Waiting? && s.service.call.c == m.corrId
             && !IsNotification(m.t) && m.t != PingRequest
             && Turns(more) > |s.service.inbox|
    requires ServiceReceive(true) !in more
    ensures var s, s' := Run(steps), Run(steps + [FromValidator(m)] + more);
            exists f :: && CompletedBy(s.service.call, f) in s'.service.results && f.msg.corrId == m.corrId
                        && (f in s.service.inbox || f == Forwarded(m, |s.engine.log|))
  {
    RunsAreMatched(steps);
    RunSnoc(steps, FromValidator(m));
    var s, s1 := Run(steps), Run(steps + [FromValidator(m)]);
    var inbox := s1.service.inbox;
    assert inbox == s.service.inbox + [Forwarded(m, |s.engine.log|)];
    var n := FirstWithId(inbox, m.corrId);
    AwaitedResponseCompletes(s1, more, s.service.call, inbox[n], n, n - Turns(more));
    RunContinues(steps + [FromValidator(m)], more);
    assert CompletedBy(s.service.call, inbox[n]) in Run(steps + [FromValidator(m)] + more).service.results;
  }

  ghost function FirstWithId(inbox: seq<Forwarded>, c: CorrId): (n: nat)
    requires exists f :: f in inbox && f.msg.corrId == c
    ensures n < |inbox| && inbox[n].msg.corrId == c
    ensures forall i :: 0 <= i < n ==> inbox[i].msg.corrId != c
  {
    if inbox[0].msg.corrId == c then 0 else 1 + FirstWithId(inbox[1..], c)
  }

  /** Once the engine has shut down, a call that is still waiting can always end, with an
      error that consumes nothing and leaves its id outstanding. */
  lemma ShutdownEndsCall(steps: seq<Step>)
    requires var s := Run(steps); s.engine.loop.Finished? && s.service.call.Waiting?
    ensures var v, v' := Run(steps).service, Next(Run(steps), ServiceReceive(true)).service;
            v'.call.NoCall? && v'.results == v.results && v'.inbox == v.inbox && v.call.c in v'.corrIds
  {
    RunsAreMatched(steps);
  }

  /** While the engine runs, a response is passed on exactly if the service is
      waiting for that very id: one that comes before the id is recorded is lost. */
  lemma ForwardedIffAwaited(steps: seq<Step>, m: Message)
    requires Run(steps).engine.loop.Polling? && !IsNotification(m.t) && m.t != PingRequest
    ensures var s := Run(steps);
            Next(s, FromValidator(m)).service != s.service
            <==> s.service.call.Waiting? && s.service.call.c == m.corrId
  {
    RunsAreMatched(steps);
  }

  /** A response that overtakes the recording of its id leaves the call waiting
      with nothing to receive. */
  lemma FastResponseIsLost()
    ensures var request, response := Message(Rpc(0), "", Bytes([])), Message(Rpc(1), "a", Bytes([]));
            var s := Run([StartCall("a", request, Rpc(1)), FromService, FromValidator(response), RecordId]);
            s.service.call.Waiting? && s.service.call.c == "a" && s.service.inbox == [] && s.service.stash == map[]
  {
    var request, response := Message(Rpc(0), "", Bytes([])), Message(Rpc(1), "a", Bytes([]));
    RunFour(StartCall("a", request, Rpc(1)), FromService, FromValidator(response), RecordId);
    var s1 := Next(Init(), StartCall("a", request, Rpc(1)));
    var s2 := Next(s1, FromService);
    var s3 := Next(s2, FromValidator(response));
    assert s3.service == s1.service && s1.service.call == Sent("a", Rpc(1));
  }

  lemma RunFour(a: Step, b: Step, c: Step, d: Step)
    ensures Run([a, b, c, d]) == Next(Next(Next(Next(Init(), a), b), c), d)
  {
    assert [a][..0] == [] && [a, b][..1] == [a] && [a, b, c][..2] == [a, b] && [a, b, c, d][..3] == [a, b, c];
    assert Run([a]) == Next(Init(), a);
    assert Run([a, b]) == Next(Run([a]), b);
    assert Run([a, b, c]) == Next(Run([a, b]), c);
  }
}
