/** The receive loops inside the protocols, one turn a step, are the connection's own
    RecvMsgWithId: a worker of the processor waiting for a context response, and the
    consensus service waiting for the response to a call. */
module SelectiveReceive {
  import opened Common
  import Connection
  import Processor
  import ConsensusEngine

  // ---- A connection over messages of any type --------------------------------------

  /** The connection that has `inbox` still to read and `stash` set aside, where `wire`
      gives the message as the connection sees it. */
  ghost function Over<M>(inbox: seq<M>, stash: map<string, M>, wire: M -> Connection.Msg): Connection.Conn {
    Connection.Conn(seq(|inbox|, i requires 0 <= i < |inbox| => Connection.Frame("", wire(inbox[i]), true)),
                    map c | c in stash :: Connection.Stored("", wire(stash[c])))
  }

  /** Reading one message that is not the one asked for sets it aside. */
  lemma ScanSkips<M>(inbox: seq<M>, stash: map<string, M>, wire: M -> Connection.Msg, c: string)
    requires inbox != [] && wire(inbox[0]).id != c
    ensures Connection.Scan(Over(inbox, stash, wire), c)
         == Connection.Scan(Over(inbox[1..], stash[wire(inbox[0]).id := inbox[0]], wire), c)
  {
    var k, k' := Over(inbox, stash, wire), Over(inbox[1..], stash[wire(inbox[0]).id := inbox[0]], wire);
    assert k.unread[1..] == k'.unread;
    assert k.incoming[wire(inbox[0]).id := Connection.Stored("", wire(inbox[0]))] == k'.incoming;
  }

  lemma ScanHits<M>(inbox: seq<M>, stash: map<string, M>, wire: M -> Connection.Msg, c: string)
    requires inbox != [] && wire(inbox[0]).id == c
    ensures Connection.Scan(Over(inbox, stash, wire), c)
         == (Over(inbox[1..], stash, wire), Connection.Got("", wire(inbox[0]), true))
  {
    assert Over(inbox, stash, wire).unread[1..] == Over(inbox[1..], stash, wire).unread;
  }

  // ---- The worker ------------------------------------------------------------------

  /** Turns until the worker has its message or has read everything. */
  ghost function WorkerReceive(wk: Processor.Worker): (wk': Processor.Worker)
    requires wk.phase.Awaiting?
    decreases |wk.inbox|
  {
    var next := Processor.ReceiveOne(wk);
    if next.phase.Awaiting? && next != wk then WorkerReceive(next) else next
  }

  ghost predicate KeepsId(wire: Processor.Message -> Connection.Msg) {
    forall m :: wire(m).id == m.corrId
  }

  /** The worker's turns, however many it takes, are one RecvMsgWithId on its connection:
      they leave the same messages unread and set aside, and return exactly if that does. */
  lemma {:induction false} WorkerReceiveIsRecvMsgWithId(wk: Processor.Worker, wire: Processor.Message -> Connection.Msg)
    requires wk.phase.Awaiting? && KeepsId(wire)
    ensures var wk' := WorkerReceive(wk);
            var (k, r) := Connection.ReceiveWithId(Over(wk.inbox, wk.stash, wire), wk.phase.corrId);
            && Over(wk'.inbox, wk'.stash, wire) == k
            && wk'.outbox == wk.outbox
            && (r.Got? <==> wk'.phase == Processor.Applying(wk.phase.req))
            && (r.Blocked? <==> wk'.phase == wk.phase)
    decreases |wk.inbox|
  {
    var c := wk.phase.corrId;
    if c !in wk.stash && wk.inbox != [] {
      if wk.inbox[0].corrId == c {
        ScanHits(wk.inbox, wk.stash, wire, c);
      } else {
        ScanSkips(wk.inbox, wk.stash, wire, c);
        var next := Processor.ReceiveOne(wk);
        assert |next.inbox| < |wk.inbox|;
        WorkerReceiveIsRecvMsgWithId(next, wire);
      }
    }
  }

  // ---- The service ------------------------------------------------------------------

  /** Turns until the call is completed or everything has been read. */
  ghost function ServiceReceive(v: ConsensusEngine.Service): (v': ConsensusEngine.Service)
    requires v.call.Waiting?
    decreases |v.inbox|
  {
    var next := ConsensusEngine.ServiceTurn(v);
    if next.call.Waiting? && next != v then ServiceReceive(next) else next
  }

  ghost predicate KeepsForwardedId(wire: ConsensusEngine.Forwarded -> Connection.Msg) {
    forall f :: wire(f).id == f.msg.corrId
  }

  /** The turns of the service are one RecvMsgWithId on its connection, and the message
      that returns is the one that completes the call. */
  lemma {:induction false} ServiceReceiveIsRecvMsgWithId(
    v: ConsensusEngine.Service, wire: ConsensusEngine.Forwarded -> Connection.Msg)
    requires v.call.Waiting? && KeepsForwardedId(wire)
    ensures var v' := ServiceReceive(v);
            var (k, r) := Connection.ReceiveWithId(Over(v.inbox, v.stash, wire), v.call.c);
            && Over(v'.inbox, v'.stash, wire) == k
            && (r.Blocked? <==> v'.call == v.call)
            && (r.Got? <==> v'.call.NoCall?)
            && (r.Got? ==> |v'.results| == |v.results| + 1 && wire(v'.results[|v.results|].response) == r.msg)
    decreases |v.inbox|
  {
    var c := v.call.c;
    if c !in v.stash && v.inbox != [] {
      if v.inbox[0].msg.corrId == c {
        ScanHits(v.inbox, v.stash, wire, c);
      } else {
        ScanSkips(v.inbox, v.stash, wire, c);
        var next := ConsensusEngine.ServiceTurn(v);
        assert |next.inbox| < |v.inbox|;
        ServiceReceiveIsRecvMsgWithId(next, wire);
      }
    }
  }
}
