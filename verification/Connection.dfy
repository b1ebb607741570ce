/** Selective receive on a connection (messaging/connection.go): messages that
    arrive before the one asked for are set aside in the `incoming` map. */
module Connection {
  import opened Common

  type Id = string

  datatype Msg = Msg(id: Id, kind: nat, body: seq<Byte>)

  /** A multi-part message from the socket.  `decoded` is false when LoadMsg
      reports an error for it; a frame of unexpected length is Malformed. */
  datatype Frame = Frame(sender: string, msg: Msg, decoded: bool) | Malformed

  datatype Stored = Stored(sender: string, msg: Msg)

  datatype Conn = Conn(unread: seq<Frame>, incoming: map<Id, Stored>)

  /** Blocked: the call is still waiting with everything sent so far consumed. */
  datatype Result = Got(sender: string, msg: Msg, decoded: bool) | Failed | Blocked

  // ---- The operations ---------------------------------------------------

  /** The receive loop of RecvMsgWithId. */
  function Scan(k: Conn, c: Id): (r: (Conn, Result))
    decreases |k.unread|
  {
    if k.unread == [] then (k, Blocked)
    else
      var rest := k.unread[1..];
      match k.unread[0]
      case Malformed => (k.(unread := rest), Failed)
      case Frame(sender, msg, decoded) =>
        if msg.id == c then (k.(unread := rest), Got(sender, msg, decoded))
        else Scan(Conn(rest, k.incoming[msg.id := Stored(sender, msg)]), c)
  }

  /** RecvMsgWithId; a message already set aside is returned but not removed. */
  function ReceiveWithId(k: Conn, c: Id): (r: (Conn, Result)) {
    if c in k.incoming then (k, Got(k.incoming[c].sender, k.incoming[c].msg, true)) else Scan(k, c)
  }

  /** RecvMsg, where `choice` is the key that ranging over `incoming` yields first. */
  function ReceiveAny(k: Conn, choice: Id): (r: (Conn, Result))
    requires k.incoming != map[] ==> choice in k.incoming
  {
    if k.incoming != map[] then
      (k.(incoming := k.incoming - {choice}), Got(k.incoming[choice].sender, k.incoming[choice].msg, true))
    else if k.unread == [] then (k, Blocked)
    else
      var rest := k.(unread := k.unread[1..]);
      match k.unread[0]
      case Malformed => (rest, Failed)
      case Frame(sender, msg, decoded) => (rest, Got(sender, msg, decoded))
  }

  class ZmqConnection {
    var unread: seq<Frame>
    var incoming: map<Id, Stored>
    var sent: seq<Msg>

    function View(): (k: Conn)
      reads this
    {
      Conn(unread, incoming)
    }

    constructor (stream: seq<Frame>)
      ensures View() == Conn(stream, map[]) && sent == []
    {
      unread, incoming, sent := stream, map[], [];
    }

    /** SendNewMsg with the correlation id it generates. */
    method SendNewMsg(corrId: Id, kind: nat, body: seq<Byte>)
      modifies this`sent
      ensures sent == old(sent) + [Msg(corrId, kind, body)]
    {
      sent := sent + [Msg(corrId, kind, body)];
    }

    method RecvMsgWithId(corrId: Id) returns (r: Result)
      modifies this`unread, this`incoming
      ensures (View(), r) == ReceiveWithId(old(View()), corrId)
      ensures corrId in old(incoming) ==>
                r == Got(old(incoming)[corrId].sender, old(incoming)[corrId].msg, true) && View() == old(View())
      ensures corrId !in old(incoming) ==>
                var n := StopsAt(old(unread), corrId);
                if n == |old(unread)| then
                  r == Blocked && unread == [] && incoming == SetAside(old(incoming), old(unread))
                else
                  && unread == old(unread)[n + 1..] && incoming == SetAside(old(incoming), old(unread)[..n])
                  && var f := old(unread)[n];
                     r == if f.Malformed? then Failed else Got(f.sender, f.msg, f.decoded)
    {
      ScanConsumesPrefix(View(), corrId);
      if corrId in incoming {
        return Got(incoming[corrId].sender, incoming[corrId].msg, true);
      }
      while unread != []
        invariant Scan(View(), corrId) == Scan(old(View()), corrId)
        decreases |unread|
      {
        var frame := unread[0];
        unread := unread[1..];
        if frame.Malformed? {
          return Failed;
        }
        if frame.msg.id == corrId {
          return Got(frame.sender, frame.msg, frame.decoded);
        }
        incoming := incoming[frame.msg.id := Stored(frame.sender, frame.msg)];
      }
      r := Blocked;
    }

    method RecvMsg() returns (r: Result, ghost choice: Id)
      modifies this`unread, this`incoming
      ensures old(incoming) != map[] ==> choice in old(incoming)
      ensures (View(), r) == ReceiveAny(old(View()), choice)
      ensures old(incoming) != map[] ==>
                && r == Got(old(incoming)[choice].sender, old(incoming)[choice].msg, true)
                && incoming == old(incoming) - {choice} && unread == old(unread)
      ensures old(incoming) == map[] && old(unread) == [] ==> r == Blocked && View() == old(View())
      ensures old(incoming) == map[] && old(unread) != [] ==>
                && unread == old(unread)[1..] && incoming == map[]
                && var f := old(unread)[0];
                   r == if f.Malformed? then Failed else Got(f.sender, f.msg, f.decoded)
    {
      choice := "";
      if incoming != map[] {
        assert incoming.Keys != {};
        var corrId :| corrId in incoming;
        choice := corrId;
        var stored := incoming[corrId];
        incoming := incoming - {corrId};
        return Got(stored.sender, stored.msg, true), choice;
      }
      if unread == [] {
        return Blocked, choice;
      }
      var frame := unread[0];
      unread := unread[1..];
      r := if frame.Malformed? then Failed else Got(frame.sender, frame.msg, frame.decoded);
    }
  }

  // ---- What one call consumes -------------------------------------------

  ghost predicate Carries(f: Frame, c: Id) {
    f.Frame? && f.msg.id == c
  }

  /** Index of the first frame that ends the loop of RecvMsgWithId(c), or the length. */
  ghost function StopsAt(fs: seq<Frame>, c: Id): (n: nat)
    ensures n <= |fs|
    ensures n < |fs| ==> fs[n].Malformed? || Carries(fs[n], c)
    ensures forall j :: 0 <= j < n ==> fs[j].Frame? && fs[j].msg.id != c
  {
    if fs == [] then 0
    else if fs[0].Malformed? || Carries(fs[0], c) then 0
    else
      var n := StopsAt(fs[1..], c);
      assert forall j :: 1 <= j < n + 1 ==> fs[j] == fs[1..][j - 1];
      1 + n
  }

  /** The map after setting the frames `fs` aside one after the other. */
  ghost function SetAside(incoming: map<Id, Stored>, fs: seq<Frame>): map<Id, Stored>
    requires forall f :: f in fs ==> f.Frame?
    decreases |fs|
  {
    if fs == [] then incoming
    else SetAside(incoming[fs[0].msg.id := Stored(fs[0].sender, fs[0].msg)], fs[1..])
  }

  /** A miss consumes exactly the prefix through the frame it stops at, returns
      that frame, and sets every frame before it aside under its own id. */
  lemma {:induction false} ScanConsumesPrefix(k: Conn, c: Id)
    ensures var n := StopsAt(k.unread, c);
            Scan(k, c) ==
              if n == |k.unread| then (Conn([], SetAside(k.incoming, k.unread)), Blocked)
              else (Conn(k.unread[n + 1..], SetAside(k.incoming, k.unread[..n])),
                    if k.unread[n].Malformed? then Failed
                    else Got(k.unread[n].sender, k.unread[n].msg, k.unread[n].decoded))
    decreases |k.unread|
  {
    if k.unread != [] && k.unread[0].Frame? && k.unread[0].msg.id != c {
      var f := k.unread[0];
      var k1 := Conn(k.unread[1..], k.incoming[f.msg.id := Stored(f.sender, f.msg)]);
      ScanConsumesPrefix(k1, c);
      var n1 := StopsAt(k1.unread, c);
      assert n1 < |k1.unread| ==> k1.unread[n1 + 1..] == k.unread[n1 + 2..];
      assert k.unread[..n1 + 1][1..] == k1.unread[..n1];
    } else if k.unread != [] {
      assert k.unread[..0] == [];
    }
  }

  // ---- Repeated ids -------------------------------------------------------

  ghost function StoredOf(f: Frame): Stored
    requires f.Frame?
  {
    Stored(f.sender, f.msg)
  }

  /** The index of the last frame carrying `c`. */
  ghost function LastWith(fs: seq<Frame>, c: Id): (i: Option<nat>)
    ensures i.None? ==> forall j :: 0 <= j < |fs| ==> !Carries(fs[j], c)
    ensures i.Some? ==> i.value < |fs| && Carries(fs[i.value], c)
    ensures i.Some? ==> forall j :: i.value < j < |fs| ==> !Carries(fs[j], c)
  {
    if fs == [] then None
    else
      var n := |fs| - 1;
      if Carries(fs[n], c) then Some(n) else LastWith(fs[..n], c)
  }

  /** Setting frames aside keeps, under every id, the last of them. */
  lemma {:induction false} SetAsideKeepsLast(incoming: map<Id, Stored>, fs: seq<Frame>, c: Id)
    requires forall f :: f in fs ==> f.Frame?
    ensures var after, last := SetAside(incoming, fs), LastWith(fs, c);
            && (c in after <==> c in incoming || last.Some?)
            && (last.Some? ==> after[c] == StoredOf(fs[last.value]))
            && (last.None? && c in incoming ==> after[c] == incoming[c])
    decreases |fs|
  {
    if fs != [] {
      var rest := fs[1..];
      var first := incoming[fs[0].msg.id := StoredOf(fs[0])];
      SetAsideKeepsLast(first, rest, c);
      assert forall j :: 0 <= j < |rest| ==> fs[j + 1] == rest[j];
      if LastWith(fs, c).Some? && LastWith(rest, c).Some? {
        var i, j := LastWith(fs, c).value, LastWith(rest, c).value;
        assert Carries(fs[j + 1], c) && j + 1 <= i;
        assert Carries(rest[i - 1], c) && i - 1 <= j;
      }
    }
  }

  /** After a miss, on any stream: a frame that was set aside is still held exactly if
      the last one set aside under its id stores the same message. */
  lemma SetAsideKeptIff(k: Conn, c: Id, i: nat)
    requires c !in k.incoming && i < StopsAt(k.unread, c)
    ensures var n, after := StopsAt(k.unread, c), ReceiveWithId(k, c).0.incoming;
            var f := k.unread[i];
            var last := LastWith(k.unread[..n], f.msg.id);
            && last.Some? && f.msg.id in after
            && (after[f.msg.id] == StoredOf(f) <==> StoredOf(k.unread[last.value]) == StoredOf(f))
  {
    var n := StopsAt(k.unread, c);
    ScanConsumesPrefix(k, c);
    var prefix := k.unread[..n];
    assert prefix[i] == k.unread[i] && (n == |k.unread| ==> prefix == k.unread);
    SetAsideKeepsLast(k.incoming, prefix, prefix[i].msg.id);
  }

  /** After a miss, on any stream: an entry held before the call is overwritten exactly
      if a frame with its id was set aside and the last such stores another message. */
  lemma EntryOverwrittenIff(k: Conn, c: Id, d: Id)
    requires c !in k.incoming && d in k.incoming
    ensures var n, after := StopsAt(k.unread, c), ReceiveWithId(k, c).0.incoming;
            var last := LastWith(k.unread[..n], d);
            && d in after
            && (after[d] != k.incoming[d] <==> last.Some? && StoredOf(k.unread[last.value]) != k.incoming[d])
  {
    var n := StopsAt(k.unread, c);
    ScanConsumesPrefix(k, c);
    assert n == |k.unread| ==> k.unread[..n] == k.unread;
    SetAsideKeepsLast(k.incoming, k.unread[..n], d);
  }

  // ---- Runs of calls ----------------------------------------------------

  datatype Call = WithId(c: Id) | Any(choice: Id)

  /** A connection together with the ids whose message has been handed out and
      is no longer kept anywhere. */
  datatype History = History(k: Conn, gone: set<Id>)

  predicate Possible(k: Conn, call: Call) {
    call.Any? && k.incoming != map[] ==> call.choice in k.incoming
  }

  function Invoke(k: Conn, call: Call): (r: (Conn, Result))
    requires Possible(k, call)
  {
    match call
    case WithId(c) => ReceiveWithId(k, c)
    case Any(choice) => ReceiveAny(k, choice)
  }

  function Next(h: History, call: Call): (h': History) {
    if !Possible(h.k, call) then h
    else
      var (k', r) := Invoke(h.k, call);
      // handed out and not kept: everything except a hit in `incoming` by id
      var kept := r.Got? && r.msg.id in k'.incoming;
      History(k', if r.Got? && !kept then h.gone + {r.msg.id} else h.gone)
  }

  function Run(stream: seq<Frame>, calls: seq<Call>): (h: History)
    decreases |calls|
  {
    if calls == [] then History(Conn(stream, map[]), {})
    else Next(Run(stream, calls[..|calls| - 1]), calls[|calls| - 1])
  }

  // ---- Conservation over any stream ------------------------------------------

  /** The entries the receive loop overwrites. */
  ghost function ScanLoses(k: Conn, c: Id): seq<Stored>
    decreases |k.unread|
  {
    if k.unread == [] || k.unread[0].Malformed? || k.unread[0].msg.id == c then []
    else
      var f := k.unread[0];
      (if f.msg.id in k.incoming then [k.incoming[f.msg.id]] else [])
      + ScanLoses(Conn(k.unread[1..], k.incoming[f.msg.id := StoredOf(f)]), c)
  }

  ghost function LostBy(k: Conn, call: Call): seq<Stored> {
    if call.WithId? && call.c !in k.incoming then ScanLoses(k, call.c) else []
  }

  /** What a call hands out for good: its result, unless that is still set aside. */
  ghost function HandedBy(k: Conn, call: Call): seq<Stored> {
    if !Possible(k, call) then []
    else
      var (k', r) := Invoke(k, call);
      if r.Got? && r.msg.id !in k'.incoming then [Stored(r.sender, r.msg)] else []
  }

  ghost function Handed(stream: seq<Frame>, calls: seq<Call>): seq<Stored> {
    if calls == [] then []
    else
      var front := calls[..|calls| - 1];
      Handed(stream, front) + HandedBy(Run(stream, front).k, calls[|calls| - 1])
  }

  ghost function Lost(stream: seq<Frame>, calls: seq<Call>): seq<Stored> {
    if calls == [] then []
    else
      var front := calls[..|calls| - 1];
      Lost(stream, front) + LostBy(Run(stream, front).k, calls[|calls| - 1])
  }

  ghost function Occurs(xs: seq<Stored>, x: Stored): nat {
    if xs == [] then 0 else (if xs[0] == x then 1 else 0) + Occurs(xs[1..], x)
  }

  ghost function Arriving(fs: seq<Frame>, x: Stored): nat {
    if fs == [] then 0 else (if fs[0].Frame? && StoredOf(fs[0]) == x then 1 else 0) + Arriving(fs[1..], x)
  }

  ghost function Held(incoming: map<Id, Stored>, x: Stored): nat {
    if x.msg.id in incoming && incoming[x.msg.id] == x then 1 else 0
  }

  ghost predicate KeyedById(incoming: map<Id, Stored>) {
    forall c :: c in incoming ==> incoming[c].msg.id == c
  }

  lemma {:induction false} OccursConcat(xs: seq<Stored>, ys: seq<Stored>, x: Stored)
    ensures Occurs(xs + ys, x) == Occurs(xs, x) + Occurs(ys, x)
    decreases |xs|
  {
    if xs == [] {
      assert xs + ys == ys;
    } else {
      OccursConcat(xs[1..], ys, x);
      assert (xs + ys)[1..] == xs[1..] + ys;
    }
  }

  lemma {:induction false} ArrivingExists(fs: seq<Frame>, x: Stored) returns (i: nat)
    requires Arriving(fs, x) > 0
    ensures i < |fs| && fs[i].Frame? && StoredOf(fs[i]) == x
  {
    if fs[0].Frame? && StoredOf(fs[0]) == x {
      return 0;
    }
    var j := ArrivingExists(fs[1..], x);
    i := j + 1;
  }

  lemma {:induction false} ScanConserves(k: Conn, c: Id, x: Stored)
    requires KeyedById(k.incoming) && c !in k.incoming
    ensures var (k', r) := Scan(k, c);
            && KeyedById(k'.incoming) && c !in k'.incoming && (r.Got? ==> r.msg.id == c)
            && Arriving(k.unread, x) + Held(k.incoming, x)
               == Arriving(k'.unread, x) + Held(k'.incoming, x) + Occurs(ScanLoses(k, c), x)
                  + if r.Got? && Stored(r.sender, r.msg) == x then 1 else 0
    decreases |k.unread|
  {
    if k.unread != [] && k.unread[0].Frame? && k.unread[0].msg.id != c {
      var f := k.unread[0];
      var k1 := Conn(k.unread[1..], k.incoming[f.msg.id := StoredOf(f)]);
      ScanConserves(k1, c, x);
      OccursConcat(if f.msg.id in k.incoming then [k.incoming[f.msg.id]] else [], ScanLoses(k1, c), x);
    }
  }

  lemma NextConserves(h: History, call: Call, x: Stored)
    requires KeyedById(h.k.incoming)
    ensures var k, k' := h.k, Next(h, call).k;
            && KeyedById(k'.incoming)
            && Arriving(k.unread, x) + Held(k.incoming, x)
               == Arriving(k'.unread, x) + Held(k'.incoming, x)
                  + Occurs(HandedBy(k, call), x) + Occurs(LostBy(k, call), x)
  {
    if call.WithId? && call.c !in h.k.incoming {
      ScanConserves(h.k, call.c, x);
    }
  }

  /** On any stream, repeated ids and malformed frames included, and over any calls,
      every message of the stream is, as often as it was sent, in exactly one of four
      places: unread, set aside under its own id, handed out for good, or overwritten. */
  lemma {:induction false} RunsConserve(stream: seq<Frame>, calls: seq<Call>, x: Stored)
    ensures var k := Run(stream, calls).k;
            && KeyedById(k.incoming)
            && Arriving(stream, x) == Arriving(k.unread, x) + Held(k.incoming, x)
                                      + Occurs(Handed(stream, calls), x) + Occurs(Lost(stream, calls), x)
    decreases |calls|
  {
    if calls != [] {
      var front, call := calls[..|calls| - 1], calls[|calls| - 1];
      RunsConserve(stream, front, x);
      var h := Run(stream, front);
      NextConserves(h, call, x);
      OccursConcat(Handed(stream, front), HandedBy(h.k, call), x);
      OccursConcat(Lost(stream, front), LostBy(h.k, call), x);
    }
  }

  // ---- RecvMsg makes progress ----------------------------------------------------

  ghost function Pending(k: Conn): nat {
    |k.unread| + |k.incoming|
  }

  /** RecvMsg waits exactly if nothing is set aside and nothing unread, fails exactly if
      nothing is set aside and the next frame is malformed, and returns a message
      otherwise; unless it waits, one message less is left. */
  lemma ReceiveAnyProgress(k: Conn, choice: Id)
    requires Possible(k, Any(choice))
    ensures var (k', r) := ReceiveAny(k, choice);
            && (r.Blocked? <==> k.incoming == map[] && k.unread == [])
            && (r.Failed? <==> k.incoming == map[] && k.unread != [] && k.unread[0].Malformed?)
            && Pending(k') == if r.Blocked? then 0 else Pending(k) - 1
  {
    if k.incoming != map[] {
      assert (k.incoming - {choice}).Keys == k.incoming.Keys - {choice};
      assert |k.incoming.Keys - {choice}| == |k.incoming.Keys| - 1;
    }
  }

  /** After any calls on any stream, what RecvMsg returns is a message of the stream. */
  lemma ReceiveAnyWasSent(stream: seq<Frame>, calls: seq<Call>, choice: Id)
    requires Possible(Run(stream, calls).k, Any(choice)) && ReceiveAny(Run(stream, calls).k, choice).1.Got?
    ensures var r := ReceiveAny(Run(stream, calls).k, choice).1; SentInStream(stream, r.msg.id, r)
  {
    var k := Run(stream, calls).k;
    var r := ReceiveAny(k, choice).1;
    var x := Stored(r.sender, r.msg);
    RunsConserve(stream, calls, x);
    var i := ArrivingExists(stream, x);
    assert Carries(stream[i], r.msg.id);
  }

  /** RecvMsg can be called with each of these choices in turn. */
  ghost predicate AllPossible(k: Conn, choices: seq<Id>)
    decreases |choices|
  {
    choices == [] || (Possible(k, Any(choices[0])) && AllPossible(ReceiveAny(k, choices[0]).0, choices[1..]))
  }

  ghost function AfterAll(k: Conn, choices: seq<Id>): (k': Conn)
    requires AllPossible(k, choices)
    decreases |choices|
  {
    if choices == [] then k else AfterAll(ReceiveAny(k, choices[0]).0, choices[1..])
  }

  ghost function Results(k: Conn, choices: seq<Id>): (rs: seq<Result>)
    requires AllPossible(k, choices)
    ensures |rs| == |choices|
    decreases |choices|
  {
    if choices == [] then []
    else [ReceiveAny(k, choices[0]).1] + Results(ReceiveAny(k, choices[0]).0, choices[1..])
  }

  /** As many calls as there are messages unread and set aside drain the connection, and
      none of them waits. */
  lemma {:induction false} CallsDrain(k: Conn, choices: seq<Id>)
    requires AllPossible(k, choices) && |choices| <= Pending(k)
    ensures Pending(AfterAll(k, choices)) == Pending(k) - |choices|
    ensures Blocked !in Results(k, choices)
    decreases |choices|
  {
    if choices != [] {
      ReceiveAnyProgress(k, choices[0]);
      CallsDrain(ReceiveAny(k, choices[0]).0, choices[1..]);
    }
  }

  /** With nothing set aside the calls hand out the frames in the order of the stream. */
  lemma {:induction false} CallsDrainInOrder(k: Conn, choices: seq<Id>, i: nat)
    requires k.incoming == map[] && AllPossible(k, choices) && i < |choices| <= |k.unread|
    ensures Results(k, choices)[i]
         == if k.unread[i].Malformed? then Failed else Got(k.unread[i].sender, k.unread[i].msg, k.unread[i].decoded)
    ensures AfterAll(k, choices) == Conn(k.unread[|choices|..], map[])
    decreases |choices|
  {
    var k1 := ReceiveAny(k, choices[0]).0;
    assert k1 == Conn(k.unread[1..], map[]);
    if |choices| > 1 {
      CallsDrainInOrder(k1, choices[1..], if i > 0 then i - 1 else 0);
      assert k1.unread[|choices| - 1..] == k.unread[|choices|..];
    }
  }

  // ---- Distinct ids -----------------------------------------------------------

  ghost predicate DistinctIds(stream: seq<Frame>) {
    forall i, j :: 0 <= i < j < |stream| && stream[i].Frame? && stream[j].Frame? ==>
                     stream[i].msg.id != stream[j].msg.id
  }

  /** The whole stream has been read up to `used`; each message read is either
      gone or set aside under its own id, never both, and nothing else is. */
  ghost predicate Accounted(stream: seq<Frame>, used: nat, h: History) {
    && used <= |stream| && h.k.unread == stream[used..]
    && (forall i :: 0 <= i < used && stream[i].Frame? ==> FrameAccounted(h, stream[i]))
    && (forall c :: c in h.k.incoming ==> IsReadId(stream, used, c))
    && (forall c :: c in h.gone ==> IsReadId(stream, used, c))
  }

  ghost predicate FrameAccounted(h: History, f: Frame)
    requires f.Frame?
  {
    if f.msg.id in h.gone then f.msg.id !in h.k.incoming
    else f.msg.id in h.k.incoming && h.k.incoming[f.msg.id] == Stored(f.sender, f.msg)
  }

  ghost predicate IsReadId(stream: seq<Frame>, used: nat, c: Id) {
    exists i :: 0 <= i < used <= |stream| && Carries(stream[i], c)
  }

  /** Reading one more frame: it is set aside, handed out, or malformed. */
  lemma ReadKeepsAccounts(stream: seq<Frame>, used: nat, h: History)
    requires DistinctIds(stream) && Accounted(stream, used, h) && used < |stream|
    ensures h.k.unread != [] && h.k.unread[0] == stream[used] && h.k.unread[1..] == stream[used + 1..]
    ensures var f := stream[used]; var rest := stream[used + 1..];
            if f.Malformed? then Accounted(stream, used + 1, History(Conn(rest, h.k.incoming), h.gone))
            else
              && f.msg.id !in h.gone && f.msg.id !in h.k.incoming
              && Accounted(stream, used + 1, History(Conn(rest, h.k.incoming[f.msg.id := StoredOf(f)]), h.gone))
              && Accounted(stream, used + 1, History(Conn(rest, h.k.incoming), h.gone + {f.msg.id}))
  {
    var f := stream[used];
    if f.Frame? {
      assert Carries(stream[used], f.msg.id);
      assert !IsReadId(stream, used, f.msg.id);
    }
    forall c | IsReadId(stream, used, c)
      ensures IsReadId(stream, used + 1, c)
    {
    }
  }

  lemma {:induction false} ScanKeepsAccounts(stream: seq<Frame>, used: nat, h: History, c: Id) returns (used': nat)
    requires DistinctIds(stream) && Accounted(stream, used, h) && c !in h.k.incoming
    ensures var (k', r) := Scan(h.k, c);
            && used <= used' && c !in k'.incoming && ScanLoses(h.k, c) == []
            && Accounted(stream, used', History(k', if r.Got? then h.gone + {c} else h.gone))
            && (r.Got? ==> r.msg.id == c && c !in h.gone
                           && used' > 0 && stream[used' - 1] == Frame(r.sender, r.msg, r.decoded))
            && (r.Blocked? ==> used' == |stream|)
            && (r.Failed? ==> used' > 0 && stream[used' - 1].Malformed?)
    decreases |stream| - used
  {
    if used == |stream| {
      return used;
    }
    ReadKeepsAccounts(stream, used, h);
    var f := stream[used];
    if f.Malformed? || f.msg.id == c {
      return used + 1;
    }
    var k1 := Conn(h.k.unread[1..], h.k.incoming[f.msg.id := Stored(f.sender, f.msg)]);
    used' := ScanKeepsAccounts(stream, used + 1, History(k1, h.gone), c);
  }

  lemma NextKeepsAccounts(stream: seq<Frame>, used: nat, h: History, call: Call) returns (used': nat)
    requires DistinctIds(stream) && Accounted(stream, used, h)
    ensures used <= used' && Accounted(stream, used', Next(h, call)) && LostBy(h.k, call) == []
  {
    used' := used;
    if Possible(h.k, call) {
      match call
      case WithId(c) =>
        if c !in h.k.incoming {
          used' := ScanKeepsAccounts(stream, used, h, c);
        } else {
          assert IsReadId(stream, used, c);
          var i :| 0 <= i < used && Carries(stream[i], c);
          assert FrameAccounted(h, stream[i]);
        }
      case Any(choice) =>
        if h.k.incoming != map[] {
          assert IsReadId(stream, used, choice);
          var i :| 0 <= i < used && Carries(stream[i], choice);
          assert FrameAccounted(h, stream[i]);
        } else if used < |stream| {
          used' := used + 1;
          ReadKeepsAccounts(stream, used, h);
        }
    }
  }

  /** With distinct ids no message that was read is ever lost. */
  lemma {:induction false} RunsAreAccounted(stream: seq<Frame>, calls: seq<Call>) returns (used: nat)
    requires DistinctIds(stream)
    ensures Accounted(stream, used, Run(stream, calls)) && Lost(stream, calls) == []
    decreases |calls|
  {
    if calls == [] {
      used := 0;
    } else {
      var before := RunsAreAccounted(stream, calls[..|calls| - 1]);
      used := NextKeepsAccounts(stream, before, Run(stream, calls[..|calls| - 1]), calls[|calls| - 1]);
    }
  }

  /** After any calls on any stream, asking for c gives a message of the stream with
      that id or nothing: it fails exactly if none is set aside and a malformed frame
      comes before the next one, and it waits exactly if there is neither.  If ids are
      distinct and it does not fail, it is lookup by id in the whole stream: it returns
      unless there is no such message or it was handed out for good. */
  lemma ReceiveWithIdIsLookup(stream: seq<Frame>, calls: seq<Call>, c: Id)
    ensures var h := Run(stream, calls);
            var r, n := ReceiveWithId(h.k, c).1, StopsAt(h.k.unread, c);
            && (r.Got? ==> SentInStream(stream, c, r))
            && (r.Failed? <==> c !in h.k.incoming && n < |h.k.unread| && h.k.unread[n].Malformed?)
            && (r.Blocked? <==> c !in h.k.incoming && n == |h.k.unread|)
            && (DistinctIds(stream) && !r.Failed? ==>
                  (r.Got? <==> c !in h.gone && exists i :: 0 <= i < |stream| && Carries(stream[i], c)))
  {
    var h := Run(stream, calls);
    var r := ReceiveWithId(h.k, c).1;
    ScanConsumesPrefix(h.k, c);
    if r.Got? {
      GotWasSent(stream, calls, c);
    }
    if DistinctIds(stream) && !r.Failed? {
      DistinctLookup(stream, calls, c);
    }
  }

  ghost predicate SentInStream(stream: seq<Frame>, c: Id, r: Result)
    requires r.Got?
  {
    exists i :: 0 <= i < |stream| && Carries(stream[i], c) && r.sender == stream[i].sender && r.msg == stream[i].msg
  }

  lemma GotWasSent(stream: seq<Frame>, calls: seq<Call>, c: Id)
    requires ReceiveWithId(Run(stream, calls).k, c).1.Got?
    ensures SentInStream(stream, c, ReceiveWithId(Run(stream, calls).k, c).1)
  {
    var h := Run(stream, calls);
    var r := ReceiveWithId(h.k, c).1;
    var x := Stored(r.sender, r.msg);
    RunsConserve(stream, calls, x);
    if c !in h.k.incoming {
      ScanConserves(h.k, c, x);
    }
    var i := ArrivingExists(stream, x);
    assert Carries(stream[i], c);
  }

  lemma DistinctLookup(stream: seq<Frame>, calls: seq<Call>, c: Id)
    requires DistinctIds(stream) && !ReceiveWithId(Run(stream, calls).k, c).1.Failed?
    ensures ReceiveWithId(Run(stream, calls).k, c).1.Got?
            <==> c !in Run(stream, calls).gone && exists i :: 0 <= i < |stream| && Carries(stream[i], c)
  {
    var h := Run(stream, calls);
    var used := RunsAreAccounted(stream, calls);
    if c in h.k.incoming {
      assert IsReadId(stream, used, c);
      var i :| 0 <= i < used && Carries(stream[i], c);
      assert FrameAccounted(h, stream[i]);
    } else {
      var used' := ScanKeepsAccounts(stream, used, h, c);
      var (k', r) := Scan(h.k, c);
      if r.Got? {
        assert Carries(stream[used' - 1], c);
      } else if i :| 0 <= i < |stream| && Carries(stream[i], c) {
        assert FrameAccounted(History(k', h.gone), stream[i]);
      }
    }
  }

  /** Exactly-once fails for one kind of call only: asking twice for the same id
      returns the message again iff it had been set aside, not read directly. */
  lemma RepeatedIffSetAside(stream: seq<Frame>, calls: seq<Call>, c: Id)
    requires DistinctIds(stream) && ReceiveWithId(Run(stream, calls).k, c).1.Got?
    ensures var h := Run(stream, calls);
            ReceiveWithId(ReceiveWithId(h.k, c).0, c).1.Got? <==> c in h.k.incoming
  {
    var h := Run(stream, calls);
    var used := RunsAreAccounted(stream, calls);
    if c !in h.k.incoming {
      var h1 := Next(h, WithId(c));
      var used1 := ScanKeepsAccounts(stream, used, h, c);
      assert h1.k == ReceiveWithId(h.k, c).0 && c in h1.gone && c !in h1.k.incoming;
      var used2 := ScanKeepsAccounts(stream, used1, h1, c);
    }
  }

  /** A message that is lost: of two that arrive early under one id, only the later is
      kept.  When that happens in general is `SetAsideKeptIff`. */
  lemma DuplicateIdLosesMessage()
    ensures var first, second := Frame("", Msg("a", 0, [1]), true), Frame("", Msg("a", 0, [2]), true);
            var (k, r) := ReceiveWithId(Conn([first, second, Frame("", Msg("b", 0, []), true)], map[]), "b");
            r.Got? && k.unread == [] && k.incoming == map["a" := Stored("", second.msg)]
  {
    var first, second := Frame("", Msg("a", 0, [1]), true), Frame("", Msg("a", 0, [2]), true);
    var third := Frame("", Msg("b", 0, []), true);
    var k0 := Conn([first, second, third], map[]);
    var k1 := Conn([second, third], map["a" := Stored("", first.msg)]);
    var k2 := Conn([third], map["a" := Stored("", second.msg)]);
    assert k0.unread[1..] == k1.unread && k1.unread[1..] == k2.unread && k2.unread[1..] == [];
    assert Scan(k0, "b") == Scan(k1, "b");
    assert k1.incoming["a" := Stored("", second.msg)] == k2.incoming;
    assert Scan(k1, "b") == Scan(k2, "b");
  }
}
