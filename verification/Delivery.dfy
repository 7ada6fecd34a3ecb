/**
 The other direction of the tunnel: what the reader writes to the TCP connections, over
 every interleaving of the tunnel's steps.
 */
module Delivery {
  import opened Text
  import opened Frame
  import opened Multiplexer

  /** The bytes written to a connection, in order. */
  function Written(writes: seq<TcpOut>, conn: ConnId): seq<byte> {
    if writes == [] then []
    else
      var rest, o := Written(writes[..|writes| - 1], conn), writes[|writes| - 1];
      if o.conn == conn then rest + o.bytes else rest
  }

  /** What a received frame holds for a stream. */
  function DataIn(bytes: seq<byte>, id: StreamId): seq<byte> {
    var m := Decode(bytes);
    if m.Some? && m.value.id == id && m.value.typ == OP_DATA then m.value.payload else []
  }

  /** The payloads of a stream's DATA frames among those received. */
  function DataFor(inbox: seq<seq<byte>>, id: StreamId): seq<byte> {
    if inbox == [] then [] else DataFor(inbox[..|inbox| - 1], id) + DataIn(inbox[|inbox| - 1], id)
  }

  /** The data received for a connection's stream since the connection was registered. */
  function Due(s: State, conn: ConnId): seq<byte>
    requires conn < |s.conns| && conn in s.since && s.since[conn] <= |s.inbox|
  {
    DataFor(s.inbox[s.since[conn]..], s.conns[conn])
  }

  lemma WrittenAppend(writes: seq<TcpOut>, o: TcpOut, conn: ConnId)
    ensures Written(writes + [o], conn) == if o.conn == conn then Written(writes, conn) + o.bytes else Written(writes, conn)
  {
    assert (writes + [o])[..|writes|] == writes;
  }

  lemma DataForAppend(inbox: seq<seq<byte>>, from: nat, bytes: seq<byte>, id: StreamId)
    requires from <= |inbox|
    ensures DataFor((inbox + [bytes])[from..], id) == DataFor(inbox[from..], id) + DataIn(bytes, id)
  {
    var more := (inbox + [bytes])[from..];
    assert more[..|more| - 1] == inbox[from..];
  }

  predicate WritingTo(s: State, conn: ConnId) {
    s.reader.Writing? && s.reader.conn == conn
  }

  /** The reader is about to take the stream out of the table. */
  predicate GivenUp(s: State, id: StreamId) {
    s.reader.Unregistering? && s.reader.id == id
  }

  /** What one connection has been given: nothing before it is registered; afterwards what is
      due, up to the payload being written; and once it is given up, no more than a prefix. */
  predicate InStep(s: State, conn: ConnId)
    requires conn < |s.conns|
  {
    var id, out := s.conns[conn], Written(s.writes, conn);
    if conn !in s.since then out == [] && !IsRegistered(s, id, conn) && !WritingTo(s, conn)
    else
      && s.since[conn] <= |s.inbox| && !Holds(s, id, conn)
      && (if WritingTo(s, conn) then out + s.reader.payload == Due(s, conn)
          else out <= Due(s, conn) && (IsRegistered(s, id, conn) && !GivenUp(s, id) ==> out == Due(s, conn)))
  }

  /** The frame the reader is at work on holds data for none but a stream that has been registered. */
  ghost predicate InHand(s: State) {
    !s.reader.Waiting? ==>
      && s.inbox != []
      && forall id :: DataIn(s.inbox[|s.inbox| - 1], id) != [] ==> id in s.openers && PastRegistration(s.openers[id].phase)
  }

  lemma InHandStays(s: State, s': State)
    requires InHand(s) && s'.inbox == s.inbox && (s.reader.Waiting? ==> s'.reader.Waiting?)
    requires forall id :: id in s.openers && PastRegistration(s.openers[id].phase)
               ==> id in s'.openers && PastRegistration(s'.openers[id].phase)
    ensures InHand(s')
  {
  }

  ghost predicate Delivered(s: State) {
    && InHand(s)
    && (s.reader.Writing? ==> OwnConn(s, s.reader.id, s.reader.conn))
    && (forall conn :: 0 <= conn < |s.conns| ==> InStep(s, conn))
    && (forall o :: o in s.writes ==> o.conn < |s.conns|)
    && (forall conn :: conn in s.since ==> conn < |s.conns|)
  }

  lemma {:induction false} NeverWritten(writes: seq<TcpOut>, conn: ConnId)
    requires forall o :: o in writes ==> o.conn != conn
    ensures Written(writes, conn) == []
  {
    if writes != [] {
      assert writes[|writes| - 1] in writes;
      NeverWritten(writes[..|writes| - 1], conn);
    }
  }

  /** Steps that touch none of it. */
  ghost predicate SameDelivery(s: State, s': State) {
    && s'.inbox == s.inbox && s'.writes == s.writes && s'.since == s.since && s'.conns == s.conns
  }

  /** A step after which no connection is newly held or registered, and the reader neither
      takes up nor drops a payload. */
  lemma StaysDelivered(s: State, s': State)
    requires Delivered(s) && SameDelivery(s, s')
    requires s'.reader == s.reader || (!s.reader.Writing? && !s'.reader.Writing?)
    requires InHand(s')
    requires forall id, conn :: Holds(s', id, conn) ==> Holds(s, id, conn)
    requires forall id, conn :: IsRegistered(s', id, conn) ==> IsRegistered(s, id, conn)
    requires forall id :: GivenUp(s, id) && id in s'.streams ==> GivenUp(s', id)
    ensures Delivered(s')
  {
    forall conn | 0 <= conn < |s'.conns| ensures InStep(s', conn) {
      assert InStep(s, conn);
    }
  }

  /** What receiving a frame changes: it goes to the connection of its stream if there is one. */
  ghost predicate Receives(s: State, s': State, bytes: seq<byte>) {
    && s'.inbox == s.inbox + [bytes] && s'.writes == s.writes && s'.since == s.since && s'.conns == s.conns
    && s'.streams == s.streams && (forall id, conn :: Holds(s', id, conn) ==> Holds(s, id, conn))
    && (s'.reader.Writing? ==> IsRegistered(s, s'.reader.id, s'.reader.conn) && s'.reader.payload == DataIn(bytes, s'.reader.id))
    && (forall id :: id in s.streams && DataIn(bytes, id) != [] ==> s'.reader == Writing(id, s.streams[id], DataIn(bytes, id)))
  }

  /** How the reader's switch treats the connections. */
  ghost predicate Switches(s: State, s': State, m: Message) {
    && SameDelivery(s, s') && s'.streams == s.streams && (forall id, conn :: Holds(s', id, conn) ==> Holds(s, id, conn))
    && (if m.typ == OP_DATA && m.id in s.streams then s'.reader == Writing(m.id, s.streams[m.id], m.payload)
        else !s'.reader.Writing?)
  }

  lemma OpenSwitches(c: Config, s: State, m: Message)
    requires s.reader.Waiting? && m.typ == OP_OPEN
    ensures Switches(s, OnFrame(c, s, m), m)
  {
  }

  lemma FrameSwitches(c: Config, s: State, m: Message)
    requires s.reader.Waiting?
    ensures Switches(s, OnFrame(c, s, m), m)
  {
    if m.typ == OP_OPEN {
      OpenSwitches(c, s, m);
    }
  }

  lemma ReceiveIs(c: Config, s: State, bytes: seq<byte>)
    requires Enabled(s, Receive(bytes))
    ensures Receives(s, Quiet(c, s, Receive(bytes)), bytes)
  {
    if Decode(bytes).Some? {
      FrameSwitches(c, s.(inbox := s.inbox + [bytes]), Decode(bytes).value);
    }
  }

  lemma ReceiveKeepsInStep(s: State, s': State, bytes: seq<byte>, conn: ConnId)
    requires conn < |s.conns| && InStep(s, conn) && s.reader.Waiting? && Receives(s, s', bytes)
    requires s'.reader.Writing? ==> OwnConn(s, s'.reader.id, s'.reader.conn)
    ensures InStep(s', conn)
  {
    if conn in s.since {
      DataForAppend(s.inbox, s.since[conn], bytes, s.conns[conn]);
    }
  }

  lemma ReceiveTakesInHand(s: State, s': State, bytes: seq<byte>)
    requires s.reader.Waiting? && Conserved(s) && Receives(s, s', bytes)
    requires forall id :: id in s.openers ==> id in s'.openers && (PastRegistration(s.openers[id].phase) ==> PastRegistration(s'.openers[id].phase))
    requires forall id :: DataIn(bytes, id) != [] && !s'.reader.Waiting? ==> id in s.streams
    ensures InHand(s')
  {
    assert s'.inbox[|s'.inbox| - 1] == bytes;
    forall id | DataIn(bytes, id) != [] && !s'.reader.Waiting?
      ensures id in s'.openers && PastRegistration(s'.openers[id].phase)
    {
      assert OwnPlaces(s, id);
    }
  }

  lemma FrameInHand(c: Config, s: State, m: Message, id: StreamId)
    requires s.reader.Waiting? && (m.typ == OP_OPEN ==> m.id !in s.openIds) && (forall id :: id in s.openers ==> id in s.openIds)
    ensures m.id == id && m.typ == OP_DATA && !OnFrame(c, s, m).reader.Waiting? ==> id in s.streams
    ensures id in s.openers ==> id in OnFrame(c, s, m).openers && OnFrame(c, s, m).openers[id] == s.openers[id]
  {
  }

  lemma ReceiveDelivers(c: Config, s: State, bytes: seq<byte>)
    requires Enabled(s, Receive(bytes)) && Delivered(s) && Conserved(s)
    ensures Delivered(Quiet(c, s, Receive(bytes)))
  {
    var s' := Quiet(c, s, Receive(bytes));
    ReceiveIs(c, s, bytes);
    if s'.reader.Writing? {
      assert OwnPlaces(s, s'.reader.id);
    }
    assert forall id :: id in s.openers ==> OwnPlaces(s, id);
    if Decode(bytes).Some? {
      forall id {
        FrameInHand(c, s.(inbox := s.inbox + [bytes]), Decode(bytes).value, id);
      }
    }
    ReceiveTakesInHand(s, s', bytes);
    forall conn | 0 <= conn < |s'.conns| ensures InStep(s', conn) {
      ReceiveKeepsInStep(s, s', bytes, conn);
    }
  }

  lemma WriteDelivers(c: Config, s: State, n: nat, ok: bool)
    requires Enabled(s, TcpWrite(n, ok)) && Delivered(s) && Conserved(s)
    ensures Delivered(Quiet(c, s, TcpWrite(n, ok)))
  {
    var s' := Quiet(c, s, TcpWrite(n, ok));
    var o := TcpOut(s.reader.conn, s.reader.payload[..n], ok);
    InHandStays(s, s');
    forall conn | 0 <= conn < |s'.conns| ensures InStep(s', conn) {
      assert InStep(s, conn);
      WrittenAppend(s.writes, o, conn);
    }
  }

  lemma DialDelivers(c: Config, s: State, id: StreamId)
    requires Enabled(s, DialSucceeds(id)) && Delivered(s) && Conserved(s)
    ensures Delivered(Quiet(c, s, DialSucceeds(id)))
  {
    var s', made := Quiet(c, s, DialSucceeds(id)), |s.conns|;
    NeverWritten(s.writes, made);
    InHandStays(s, s');
    forall conn | 0 <= conn < |s'.conns| ensures InStep(s', conn) {
      assert OwnPlaces(s, id);
      if conn < made {
        assert InStep(s, conn);
      }
    }
  }

  lemma DataInLast(inbox: seq<seq<byte>>, id: StreamId)
    requires inbox != []
    ensures DataFor(inbox[|inbox| - 1..], id) == DataIn(inbox[|inbox| - 1], id)
  {
    var last := inbox[|inbox| - 1..];
    assert last[..|last| - 1] == [];
    assert DataFor([], id) + DataIn(last[0], id) == DataIn(last[0], id);
  }

  /** The frame at work holds nothing for a stream that is only now registered. */
  lemma NothingInHandFor(s: State, id: StreamId)
    requires InHand(s) && id in s.openers && s.openers[id].phase.Dialled?
    ensures DataFor(s.inbox[Handled(s)..], id) == []
  {
    if s.reader.Waiting? {
      assert s.inbox[|s.inbox|..] == [];
    } else {
      DataInLast(s.inbox, id);
    }
  }

  /** What registering does to a connection's account: its own begins, the others stay. */
  lemma RegisterKeepsInStep(s: State, s': State, id: StreamId, conn: ConnId)
    requires conn < |s.conns| && InStep(s, conn) && id in s.openers && s.openers[id].phase.Dialled?
    requires var mine := s.openers[id].phase.conn;
             && OwnConn(s, id, mine) && s'.streams == s.streams[id := mine] && s'.since == s.since[mine := Handled(s)]
             && s'.openers == s.openers[id := s.openers[id].(phase := Registered(mine))]
    requires s'.inbox == s.inbox && s'.writes == s.writes && s'.conns == s.conns && s'.reader == s.reader
    requires DataFor(s.inbox[Handled(s)..], id) == []
    ensures InStep(s', conn)
  {
    assert conn == s.openers[id].phase.conn ==> Holds(s, id, conn);
  }

  lemma RegisterDelivers(c: Config, s: State, id: StreamId)
    requires Enabled(s, Register(id)) && Delivered(s) && Conserved(s)
    ensures Delivered(Quiet(c, s, Register(id)))
  {
    var s' := Quiet(c, s, Register(id));
    assert OwnPlaces(s, id);
    NothingInHandFor(s, id);
    InHandStays(s, s');
    forall conn | 0 <= conn < |s'.conns| ensures InStep(s', conn) {
      RegisterKeepsInStep(s, s', id, conn);
    }
  }

  lemma OpenerMoves(c: Config, s: State, a: Action)
    requires Enabled(s, a) && IsOpenerStep(a) && !a.DialSucceeds? && !a.Register? && Delivered(s)
    ensures Delivered(Quiet(c, s, a))
  {
    var s' := Quiet(c, s, a);
    OpenerLeavesReader(c, s, a);
    OpenerStaysPast(c, s, a);
    InHandStays(s, s');
    StaysDelivered(s, s');
  }

  lemma OpenerLeavesReader(c: Config, s: State, a: Action)
    requires Enabled(s, a) && IsOpenerStep(a)
    ensures Quiet(c, s, a).inbox == s.inbox && Quiet(c, s, a).reader == s.reader
  {
  }

  /** An opener that has registered its connection stays past that. */
  lemma OpenerStaysPast(c: Config, s: State, a: Action)
    requires Enabled(s, a) && IsOpenerStep(a)
    ensures forall id :: id in s.openers && PastRegistration(s.openers[id].phase)
              ==> id in Quiet(c, s, a).openers && PastRegistration(Quiet(c, s, a).openers[id].phase)
  {
    var o' := Quiet(c, s, a).openers[a.id];
    assert Quiet(c, s, a).openers == s.openers[a.id := o'];
  }

  lemma ReaderMoves(c: Config, s: State, a: Action)
    requires Enabled(s, a) && !IsOpenerStep(a) && !a.Receive? && !a.TcpWrite? && Delivered(s)
    ensures Delivered(Quiet(c, s, a))
  {
    InHandStays(s, Quiet(c, s, a));
    StaysDelivered(s, Quiet(c, s, a));
  }

  lemma OpenerDelivers(c: Config, s: State, a: Action)
    requires Enabled(s, a) && IsOpenerStep(a) && Delivered(s) && Conserved(s)
    ensures Delivered(Quiet(c, s, a))
  {
    if a.DialSucceeds? {
      DialDelivers(c, s, a.id);
    } else if a.Register? {
      RegisterDelivers(c, s, a.id);
    } else {
      OpenerMoves(c, s, a);
    }
  }

  lemma QuietDelivers(c: Config, s: State, a: Action)
    requires Enabled(s, a) && Delivered(s) && Conserved(s)
    ensures Delivered(Quiet(c, s, a))
  {
    if IsOpenerStep(a) {
      OpenerDelivers(c, s, a);
    } else if a.Receive? {
      ReceiveDelivers(c, s, a.bytes);
    } else if a.TcpWrite? {
      WriteDelivers(c, s, a.n, a.ok);
    } else {
      ReaderMoves(c, s, a);
    }
  }

  lemma SendingDelivers(s: State, author: Author, m: Message)
    requires Delivered(s)
    ensures Delivered(SendFrame(s, author, m))
  {
    InHandStays(s, SendFrame(s, author, m));
    StaysDelivered(s, SendFrame(s, author, m));
  }

  lemma DeliveryStep(c: Config, s: State, a: Action)
    requires Enabled(s, a) && Delivered(s) && Conserved(s)
    ensures Delivered(Next(c, s, a))
  {
    QuietDelivers(c, s, a);
    if Sends(c, s, a).Some? {
      SendingDelivers(Quiet(c, s, a), Sends(c, s, a).value.author, Sends(c, s, a).value.msg);
    }
  }

  lemma {:induction false} DeliveredOverRun(c: Config, s: State, acts: seq<Action>, s': State)
    requires Delivered(s) && Conserved(s) && Run(c, s, acts, s')
    ensures Delivered(s')
    decreases |acts|
  {
    if acts != [] {
      DeliveryStep(c, s, acts[0]);
      ConservedStep(c, s, acts[0]);
      DeliveredOverRun(c, Next(c, s, acts[0]), acts[1..], s');
    }
  }

  /** In every interleaving: what has been written to a connection is a prefix, in order and
      without gaps, of the DATA received for its own stream since it was registered; between
      two frames it is all of it, as long as the connection is registered.  Before, nothing
      is written. */
  lemma DataReachesItsConnection(c: Config, acts: seq<Action>, s: State, conn: ConnId)
    requires Run(c, Start, acts, s) && conn < |s.conns|
    ensures conn !in s.since ==> Written(s.writes, conn) == []
    ensures conn in s.since ==> s.since[conn] <= |s.inbox| && Written(s.writes, conn) <= Due(s, conn)
    ensures IsRegistered(s, s.conns[conn], conn) && s.reader.Waiting? ==> conn in s.since && Written(s.writes, conn) == Due(s, conn)
  {
    InvariantAtStart(c);
    DeliveredOverRun(c, Start, acts, s);
    assert InStep(s, conn);
  }
}
