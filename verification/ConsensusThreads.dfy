/** The consensus engine's functions as they are written, proved against the
    step functions of `ConsensusEngine` and of `Connection`. */
module ConsensusThreads {
  import opened Common
  import opened ConsensusEngine
  import Connection

  class EngineThread {
    var loop: Loop
    var channel: seq<Update>
    var log: seq<Message>
    var acts: seq<Act>
    var toValidator: seq<Message>

    function View(): (e: Engine)
      reads this
    {
      Engine(loop, channel, log, acts)
    }

    constructor ()
      ensures View() == Init().engine && toValidator == []
    {
      loop, channel, log, acts, toValidator := Polling, [], [], [], [];
    }

    /** receiveValidator: with room on the channel it runs to the end, otherwise it
        is left blocked in handleUpdate. */
    method ReceiveValidator(data: Option<Message>, corrIds: set<CorrId>) returns (forwarded: Option<Forwarded>)
      requires loop == Polling
      modifies this`loop, this`channel, this`log, this`acts
      ensures data.None? ==> View() == old(View()) && forwarded == None
      ensures data.Some? ==>
                var (e, f) := Receive(old(View()), corrIds, data.value);
                && forwarded == f
                && View() == if e.loop.Handling? && |e.channel| < CHANNEL_CAPACITY
                             then Push(e, data.value, Translate(data.value).u) else e
      ensures data.Some? && IsNotification(data.value.t) && Translate(data.value).Update? && |old(channel)| < 2 ==>
                && loop == Polling && channel == old(channel) + [Translate(data.value).u]
                && acts == old(acts) + [Put(Translate(data.value).u),
                                        Tell(Message(NotifyAck, data.value.corrId, Bytes([])))]
      ensures data.Some? && IsNotification(data.value.t) && Translate(data.value).Skip? ==>
                && loop == Polling && channel == old(channel)
                && acts == old(acts) + [Tell(Message(NotifyAck, data.value.corrId, Bytes([])))]
      ensures data.Some? && data.value.t == PingRequest ==>
                && loop == Polling && channel == old(channel)
                && acts == old(acts) + [Tell(Message(PingResponse, data.value.corrId, Bytes([])))]
      ensures data.Some? ==> log == old(log) + [data.value]
    {
      if data.None? {
        return None;
      }
      var msg := data.value;
      var corrId := msg.corrId;
      log := log + [msg];
      if IsNotification(msg.t) {
        var tr := Translate(msg);
        if tr.Crash? {
          loop := Crashed;
          return None;
        }
        if tr.Update? {
          if |channel| >= CHANNEL_CAPACITY {
            loop := Handling(msg);
            return None;
          }
          channel := channel + [tr.u];
          acts := acts + [Put(tr.u), Tell(Ack(corrId))];
          return None;
        }
        acts := acts + [Tell(Ack(corrId))];
        return None;
      }
      if msg.t == PingRequest {
        acts := acts + [Tell(Pong(corrId))];
        return None;
      }
      forwarded := if corrId != "" && corrId in corrIds then Some(Forwarded(msg, |log| - 1)) else None;
    }

    /** receiveService; `data` is None when the bytes do not decode.  For a request that the
        service of the whole system sent, this is the system's step. */
    method ReceiveService(data: Option<Message>, ghost s: State)
      requires loop == Polling
      requires data.Some? ==> s.engine == View() && s.toValidator == toValidator && |s.requests| > 0
                              && s.requests[0] == data.value
      modifies this`toValidator
      ensures toValidator == old(toValidator) + if data.None? then [] else [data.value]
      ensures data.Some? ==>
                Next(s, FromService) == s.(engine := View(), requests := s.requests[1..], toValidator := toValidator)
    {
      if data.None? {
        return;
      }
      toValidator := toValidator + [data.value];
    }

    /** receiveShutdown and performShutdown up to the send on the channel, and the answer
        given if that meets no error: whether to start again. */
    method Shutdown(command: string) returns (restart: bool)
      requires loop == Polling
      modifies this`loop, this`channel, this`acts
      ensures var e := ConsensusEngine.ReceiveShutdown(old(View()), command);
              View() == if e.loop.Closing? && |e.channel| < CHANNEL_CAPACITY then Closed(e) else e
      ensures command != "shutdown" && command != "restart" ==>
                loop == Finished && acts == old(acts) && channel == old(channel)
      ensures command == "shutdown" || command == "restart" ==>
                if |old(channel)| < 2 then
                  && loop == Finished && acts == old(acts) + [Put(UpdateShutdown), Close]
                  && channel == old(channel) + [UpdateShutdown]
                else loop == Closing && acts == old(acts) && channel == old(channel)
      ensures restart <==> command == "restart"
    {
      restart := false;
      if command == "restart" {
        restart := true;
      } else if command != "shutdown" {
        loop := Finished;
        return false;
      }
      if |channel| >= CHANNEL_CAPACITY {
        loop := Closing;
        return;
      }
      channel := channel + [UpdateShutdown];
      acts := acts + [Put(UpdateShutdown), Close];
      loop := Finished;
    }
  }

  datatype RpcResult<+T> = Response(value: T) | WrongId | WrongType | BadBody | StillWaiting

  /** What serviceRpc makes of what RecvMsgWithId gave it; after a receive error
      there is no message, so its id does not match. */
  ghost function RpcOutcome<T>(
    r: Connection.Result, corrId: string, responseType: nat, parse: seq<Byte> -> Option<T>): RpcResult<T>
  {
    match r
    case Blocked => StillWaiting
    case Failed => WrongId
    case Got(_, msg, _) =>
      if msg.id != corrId then WrongId
      else if msg.kind != responseType then WrongType
      else if parse(msg.body).None? then BadBody
      else Response(parse(msg.body).value)
  }

  class ZmqService {
    const connection: Connection.ZmqConnection
    var corrIds: set<string>

    constructor (connection: Connection.ZmqConnection)
      ensures this.connection == connection && corrIds == {}
    {
      this.connection := connection;
      corrIds := {};
    }

    /** serviceRpc with the fresh id `corrId` and the response's own decoder.  The id is
        outstanding afterwards exactly if no response to it was received. */
    method ServiceRpc<T>(
      corrId: string, requestType: nat, body: seq<Byte>, responseType: nat, parse: seq<Byte> -> Option<T>)
      returns (r: RpcResult<T>)
      requires corrId !in corrIds && corrId !in connection.incoming
      modifies this, connection
      ensures connection.sent == old(connection.sent) + [Connection.Msg(corrId, requestType, body)]
      ensures var (k, got) := Connection.ReceiveWithId(old(connection.View()), corrId);
              && connection.View() == k
              && r == RpcOutcome(got, corrId, responseType, parse)
              && corrIds == old(corrIds) + if got.Got? then {} else {corrId}
      ensures var n := Connection.StopsAt(old(connection.unread), corrId);
              if n == |old(connection.unread)| then r == StillWaiting
              else if old(connection.unread)[n].Malformed? then r == WrongId
              else
                var msg := old(connection.unread)[n].msg;
                && msg.id == corrId
                && r == if msg.kind != responseType then WrongType
                        else if parse(msg.body).None? then BadBody
                        else Response(parse(msg.body).value)
      ensures r.Response? ==>
                exists i :: 0 <= i < |old(connection.unread)| && Connection.Carries(old(connection.unread)[i], corrId)
                            && old(connection.unread)[i].msg.kind == responseType
                            && parse(old(connection.unread)[i].msg.body) == Some(r.value)
    {
      connection.SendNewMsg(corrId, requestType, body);
      corrIds := corrIds + {corrId};
      ghost var before := connection.View();
      var got := connection.RecvMsgWithId(corrId);
      Connection.ScanConsumesPrefix(before, corrId);
      if got.Blocked? {
        return StillWaiting;
      }
      if got.Failed? || got.msg.id != corrId {
        return WrongId;
      }
      corrIds := corrIds - {corrId};
      if got.msg.kind != responseType {
        return WrongType;
      }
      ghost var n := Connection.StopsAt(before.unread, corrId);
      assert Connection.Carries(before.unread[n], corrId);
      var parsed := parse(got.msg.body);
      r := if parsed.None? then BadBody else Response(parsed.value);
    }
  }
}
