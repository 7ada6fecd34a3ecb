/**
 How the connections of a tunnel end, over every interleaving of its steps: by the peer's
 CLOSE, by a failed write, or by their own opener, and in no other way.
 */
module Closing {
  import opened Text
  import opened Frame
  import opened Multiplexer

  predicate IsClose(bytes: seq<byte>, id: StreamId) {
    Decode(bytes).Some? && Decode(bytes).value.typ == OP_CLOSE && Decode(bytes).value.id == id
  }

  /** The peer has sent a CLOSE for the stream among these frames. */
  ghost predicate PeerClosed(frames: seq<seq<byte>>, id: StreamId) {
    exists k :: 0 <= k < |frames| && IsClose(frames[k], id)
  }

  ghost predicate WriteFailed(writes: seq<TcpOut>, conn: ConnId) {
    exists k :: 0 <= k < |writes| && writes[k].conn == conn && !writes[k].ok
  }

  /** The opener has read the end of its connection, sent its CLOSE and taken the stream out
      of the table. */
  predicate OpenerLeft(s: State, id: StreamId) {
    id in s.openers && (s.openers[id].phase.Closing? || s.openers[id].phase == Done(true))
  }

  /** The frames that have had their effect on the stream's registration. */
  function Seen(s: State, id: StreamId): seq<seq<byte>> {
    if s.reader == Unregistering(id, false) && s.inbox != [] then s.inbox[..|s.inbox| - 1] else s.inbox
  }

  function Tried(s: State, id: StreamId): seq<TcpOut> {
    if s.reader == Unregistering(id, true) && s.writes != [] then s.writes[..|s.writes| - 1] else s.writes
  }

  /** A registered connection stays in the table until one of the three takes it out. */
  ghost predicate Kept(s: State, conn: ConnId)
    requires conn < |s.conns| && conn in s.since
  {
    var id := s.conns[conn];
    && s.since[conn] <= |Seen(s, id)|
    && (IsRegistered(s, id, conn) <==>
          !PeerClosed(Seen(s, id)[s.since[conn]..], id) && !WriteFailed(Tried(s, id), conn) && !OpenerLeft(s, id))
  }

  /** Each stream has at most one connection, which counts as registered once it has been. */
  predicate Owned(s: State, conn: ConnId)
    requires conn < |s.conns|
  {
    var id := s.conns[conn];
    && id in s.openers && (s.openers[id].phase == Dialled(conn) || PastRegistration(s.openers[id].phase))
    && (conn in s.since <==> PastRegistration(s.openers[id].phase))
    && (id in s.streams ==> conn in s.since)
  }

  /** What the reader has in hand. */
  ghost predicate AtHand(s: State) {
    && (!s.reader.Waiting? ==> s.inbox != [])
    && (s.reader.Writing? ==> OwnConn(s, s.reader.id, s.reader.conn) && s.reader.conn in s.since)
    && (s.reader.Unregistering? && !s.reader.reply ==> IsClose(s.inbox[|s.inbox| - 1], s.reader.id))
    && (s.reader.Unregistering? && s.reader.reply ==>
          s.writes != [] && !s.writes[|s.writes| - 1].ok && OwnConn(s, s.reader.id, s.writes[|s.writes| - 1].conn))
    && forall id :: !s.reader.Waiting? && IsClose(s.inbox[|s.inbox| - 1], id) ==>
         s.reader == Unregistering(id, false) || (id in s.openers && PastRegistration(s.openers[id].phase))
  }

  ghost predicate Ledger(s: State) {
    && (forall conn :: conn in s.since ==> conn < |s.conns|)
    && (forall o :: o in s.writes ==> o.conn in s.since)
    && (forall i, j :: 0 <= i < j < |s.conns| ==> s.conns[i] != s.conns[j])
  }

  ghost predicate Tracked(s: State) {
    && AtHand(s) && Ledger(s)
    && (forall conn :: 0 <= conn < |s.conns| ==> Owned(s, conn) && (conn in s.since ==> Kept(s, conn)))
  }

  lemma PeerClosedAppend(frames: seq<seq<byte>>, from: nat, bytes: seq<byte>, id: StreamId)
    requires from <= |frames|
    ensures PeerClosed((frames + [bytes])[from..], id) <==> PeerClosed(frames[from..], id) || IsClose(bytes, id)
  {
    var more, less := (frames + [bytes])[from..], frames[from..];
    assert more == less + [bytes];
    if k :| 0 <= k < |less| && IsClose(less[k], id) {
      assert more[k] == less[k];
    }
    if IsClose(bytes, id) {
      assert more[|less|] == bytes;
    }
  }

  lemma WriteFailedAppend(writes: seq<TcpOut>, o: TcpOut, conn: ConnId)
    ensures WriteFailed(writes + [o], conn) <==> WriteFailed(writes, conn) || (o.conn == conn && !o.ok)
  {
    var more := writes + [o];
    if k :| 0 <= k < |writes| && writes[k].conn == conn && !writes[k].ok {
      assert more[k] == writes[k];
    }
    assert more[|writes|] == o;
  }

  // ------------------------------------------------------------ reader steps

  /** A frame other than a CLOSE, or a CLOSE that the reader takes in hand. */
  ghost predicate TakesIn(s: State, s': State, bytes: seq<byte>) {
    && s'.inbox == s.inbox + [bytes] && s'.writes == s.writes && s'.since == s.since && s'.conns == s.conns
    && s'.streams == s.streams && (forall id :: id in s.openers ==> id in s'.openers && s'.openers[id] == s.openers[id])
    && (forall id :: id !in s.openers && id in s'.openers ==> s'.openers[id].phase.Dialing?)
    && (if exists id :: IsClose(bytes, id) then s'.reader == Unregistering(Decode(bytes).value.id, false)
        else s'.reader.Waiting? || (s'.reader.Writing? && IsRegistered(s, s'.reader.id, s'.reader.conn)))
  }

  /** How the reader's switch treats the connections. */
  ghost predicate Dispatches(s: State, s': State, m: Message) {
    && s'.inbox == s.inbox && s'.writes == s.writes && s'.since == s.since && s'.conns == s.conns
    && s'.streams == s.streams && (forall id :: id in s.openers ==> id in s'.openers && s'.openers[id] == s.openers[id])
    && (forall id :: id !in s.openers && id in s'.openers ==> s'.openers[id].phase.Dialing?)
    && (if m.typ == OP_CLOSE then s'.reader == Unregistering(m.id, false)
        else s'.reader.Waiting? || (s'.reader.Writing? && IsRegistered(s, s'.reader.id, s'.reader.conn)))
  }

  lemma OpenDispatches(c: Config, s: State, m: Message)
    requires s.reader.Waiting? && m.typ == OP_OPEN && m.id !in s.openers
    ensures Dispatches(s, OnFrame(c, s, m), m)
  {
    assert OnFrame(c, s, m).reader == s.reader;
  }

  lemma FrameDispatches(c: Config, s: State, m: Message)
    requires s.reader.Waiting? && (m.typ == OP_OPEN ==> m.id !in s.openers)
    ensures Dispatches(s, OnFrame(c, s, m), m)
  {
    if m.typ == OP_OPEN {
      OpenDispatches(c, s, m);
    } else {
      assert OnFrame(c, s, m).openers == s.openers;
    }
  }

  lemma ReceiveTakesIn(c: Config, s: State, bytes: seq<byte>)
    requires Enabled(s, Receive(bytes)) && Conserved(s)
    ensures TakesIn(s, Quiet(c, s, Receive(bytes)), bytes)
  {
    if Decode(bytes).Some? {
      var m := Decode(bytes).value;
      assert OwnPlaces(s, m.id);
      FrameDispatches(c, s.(inbox := s.inbox + [bytes]), m);
      if m.typ == OP_CLOSE {
        assert IsClose(bytes, m.id);
      }
    }
  }

  lemma TakenInIsKept(s: State, s': State, bytes: seq<byte>, conn: ConnId)
    requires s.reader.Waiting? && TakesIn(s, s', bytes) && conn < |s.conns| && Owned(s, conn)
    requires conn in s.since ==> Kept(s, conn)
    ensures Owned(s', conn) && (conn in s.since ==> Kept(s', conn))
  {
    var id := s.conns[conn];
    if conn in s.since {
      PeerClosedAppend(s.inbox, s.since[conn], bytes, id);
      if IsClose(bytes, id) {
        assert Seen(s', id) == s.inbox;
      }
    }
  }

  lemma ReceiveTracks(c: Config, s: State, bytes: seq<byte>)
    requires Enabled(s, Receive(bytes)) && Tracked(s) && Conserved(s)
    ensures Tracked(Quiet(c, s, Receive(bytes)))
  {
    var s' := Quiet(c, s, Receive(bytes));
    ReceiveTakesIn(c, s, bytes);
    forall conn | 0 <= conn < |s'.conns| ensures Owned(s', conn) && (conn in s'.since ==> Kept(s', conn)) {
      TakenInIsKept(s, s', bytes, conn);
    }
    if s'.reader.Writing? {
      assert OwnPlaces(s, s'.reader.id);
      assert Owned(s, s'.reader.conn);
    }
    assert s'.inbox[|s'.inbox| - 1] == bytes;
  }

  lemma WrittenIsKept(s: State, s': State, o: TcpOut, conn: ConnId)
    requires conn < |s.conns| && Owned(s, conn) && (conn in s.since ==> Kept(s, conn)) && s.reader.Writing?
    requires s' == s.(writes := s.writes + [o], reader := if o.ok then Waiting else Unregistering(s.reader.id, true))
    requires OwnConn(s, s.reader.id, o.conn) && (conn == o.conn || s.conns[conn] != s.conns[o.conn])
    ensures Owned(s', conn) && (conn in s.since ==> Kept(s', conn))
  {
    WriteFailedAppend(s.writes, o, conn);
    assert s'.writes[..|s'.writes| - 1] == s.writes;
  }

  lemma WriteTracks(c: Config, s: State, n: nat, ok: bool)
    requires Enabled(s, TcpWrite(n, ok)) && Tracked(s)
    ensures Tracked(Quiet(c, s, TcpWrite(n, ok)))
  {
    var s' := Quiet(c, s, TcpWrite(n, ok));
    var o := TcpOut(s.reader.conn, s.reader.payload[..n], ok);
    WrittenAtHand(s, s', o);
    forall conn | 0 <= conn < |s'.conns| ensures Owned(s', conn) && (conn in s'.since ==> Kept(s', conn)) {
      WrittenIsKept(s, s', o, conn);
    }
  }

  lemma WrittenAtHand(s: State, s': State, o: TcpOut)
    requires AtHand(s) && Ledger(s) && s.reader.Writing? && o.conn == s.reader.conn
    requires s' == s.(writes := s.writes + [o], reader := if o.ok then Waiting else Unregistering(s.reader.id, true))
    ensures AtHand(s') && Ledger(s')
  {
  }

  /** Once the reader is past taking a stream out, the frame or the write that made it do so
      has had its effect. */
  lemma UnregisteredIsKept(s: State, s': State, conn: ConnId)
    requires s.reader.Unregistering? && AtHand(s) && Ledger(s) && conn < |s.conns| && conn in s.since && Kept(s, conn)
    requires s'.inbox == s.inbox && s'.writes == s.writes && s'.since == s.since && s'.conns == s.conns && s'.openers == s.openers
    requires s'.streams == s.streams - {s.reader.id} && !s'.reader.Unregistering?
    ensures Kept(s', conn)
  {
    var id := s.conns[conn];
    if id == s.reader.id {
      if s.reader.reply {
        var o := s.writes[|s.writes| - 1];
        assert s.writes == s.writes[..|s.writes| - 1] + [o];
        WriteFailedAppend(s.writes[..|s.writes| - 1], o, conn);
        assert o.conn == conn;
      } else {
        var last := s.inbox[|s.inbox| - 1];
        assert s.inbox == s.inbox[..|s.inbox| - 1] + [last];
        PeerClosedAppend(s.inbox[..|s.inbox| - 1], s.since[conn], last, id);
      }
    }
  }

  lemma UnregisteredAtHand(c: Config, s: State)
    requires Enabled(s, ReaderUnregister) && AtHand(s) && Ledger(s) && OwnPlaces(s, s.reader.id)
    requires forall conn :: 0 <= conn < |s.conns| ==> Owned(s, conn)
    ensures AtHand(Quiet(c, s, ReaderUnregister)) && Ledger(Quiet(c, s, ReaderUnregister))
    ensures var s' := Quiet(c, s, ReaderUnregister);
            && s'.inbox == s.inbox && s'.writes == s.writes && s'.since == s.since && s'.conns == s.conns
            && s'.openers == s.openers && s'.streams == s.streams - {s.reader.id} && !s'.reader.Unregistering?
  {
    assert s.streams - {s.reader.id} == Quiet(c, s, ReaderUnregister).streams;
  }

  lemma UnregisterTracks(c: Config, s: State)
    requires Enabled(s, ReaderUnregister) && Tracked(s) && Conserved(s)
    ensures Tracked(Quiet(c, s, ReaderUnregister))
  {
    var s' := Quiet(c, s, ReaderUnregister);
    assert OwnPlaces(s, s.reader.id);
    UnregisteredAtHand(c, s);
    forall conn | 0 <= conn < |s'.conns| ensures Owned(s', conn) && (conn in s'.since ==> Kept(s', conn)) {
      assert Owned(s, conn);
      if conn in s.since {
        UnregisteredIsKept(s, s', conn);
      }
    }
  }

  /** Steps that touch none of it. */
  ghost predicate SameLedger(s: State, s': State) {
    && s'.inbox == s.inbox && s'.writes == s.writes && s'.since == s.since && s'.conns == s.conns
    && s'.streams == s.streams && s'.openers == s.openers
  }

  lemma SameIsKept(s: State, s': State, conn: ConnId)
    requires SameLedger(s, s') && conn < |s.conns| && Owned(s, conn) && (conn in s.since ==> Kept(s, conn))
    requires s.reader == s'.reader || (!s.reader.Unregistering? && !s'.reader.Unregistering?)
    ensures Owned(s', conn) && (conn in s.since ==> Kept(s', conn))
  {
  }

  lemma StaysTracked(s: State, s': State)
    requires Tracked(s) && SameLedger(s, s')
    requires s'.reader == s.reader || s'.reader.Waiting? || (s.reader.ReaderClosing? && s'.reader.Replying?)
    requires s.reader.Unregistering? ==> s'.reader == s.reader
    ensures Tracked(s')
  {
    forall conn | 0 <= conn < |s'.conns| ensures Owned(s', conn) && (conn in s'.since ==> Kept(s', conn)) {
      SameIsKept(s, s', conn);
    }
  }

  // ------------------------------------------------------------ opener steps

  /** What every step of an opener leaves alone. */
  ghost predicate OpenerOnly(s: State, s': State, id: StreamId) {
    && s'.inbox == s.inbox && s'.writes == s.writes && s'.reader == s.reader
    && id in s.openers && id in s'.openers && s'.openers == s.openers[id := s'.openers[id]]
    && (PastRegistration(s.openers[id].phase) ==> PastRegistration(s'.openers[id].phase))
  }

  lemma OpenerAtHand(s: State, s': State, id: StreamId)
    requires AtHand(s) && OpenerOnly(s, s', id)
    requires s.conns <= s'.conns && forall conn :: conn in s.since ==> conn in s'.since
    ensures AtHand(s')
  {
  }

  /** A step that neither makes nor registers a connection, nor leaves the table. */
  ghost predicate Plain(s: State, s': State, id: StreamId) {
    && OpenerOnly(s, s', id) && s'.streams == s.streams && s'.since == s.since && s'.conns == s.conns
    && !s.openers[id].phase.Dialled? && !s'.openers[id].phase.Dialled?
    && (PastRegistration(s.openers[id].phase) <==> PastRegistration(s'.openers[id].phase))
    && (OpenerLeft(s, id) <==> OpenerLeft(s', id))
  }

  predicate IsPlain(a: Action) {
    a.DialFails? || a.SendError? || a.Announce? || a.TcpRead? || a.Forward? || a.SendClose? || a.CloseConn?
  }

  lemma StepIsPlain(c: Config, s: State, a: Action)
    requires Enabled(s, a) && IsPlain(a)
    ensures Plain(s, Quiet(c, s, a), a.id)
  {
    if a.TcpRead? {
      assert Quiet(c, s, a).openers[a.id].phase != Done(true);
    } else if a.Forward? {
      assert Quiet(c, s, a).openers[a.id].phase != Done(true);
    }
  }

  lemma PlainIsKept(s: State, s': State, id: StreamId, conn: ConnId)
    requires Plain(s, s', id) && conn < |s.conns| && Owned(s, conn) && (conn in s.since ==> Kept(s, conn))
    ensures Owned(s', conn) && (conn in s.since ==> Kept(s', conn))
  {
  }

  lemma PlainTracks(s: State, s': State, id: StreamId)
    requires Tracked(s) && Plain(s, s', id)
    ensures Tracked(s')
  {
    OpenerAtHand(s, s', id);
    forall conn | 0 <= conn < |s'.conns| ensures Owned(s', conn) && (conn in s'.since ==> Kept(s', conn)) {
      PlainIsKept(s, s', id, conn);
    }
  }

  lemma DialIsKept(s: State, s': State, id: StreamId, conn: ConnId)
    requires OpenerOnly(s, s', id) && s.openers[id].phase.Dialing? && s'.openers[id].phase == Dialled(|s.conns|)
    requires s'.streams == s.streams && s'.since == s.since && s'.conns == s.conns + [id]
    requires conn < |s.conns| && Owned(s, conn) && (conn in s.since ==> Kept(s, conn))
    ensures s.conns[conn] != id && Owned(s', conn) && (conn in s.since ==> Kept(s', conn))
  {
  }

  lemma DialTracks(c: Config, s: State, id: StreamId)
    requires Enabled(s, DialSucceeds(id)) && Tracked(s) && Conserved(s)
    ensures Tracked(Quiet(c, s, DialSucceeds(id)))
  {
    var s' := Quiet(c, s, DialSucceeds(id));
    assert OwnPlaces(s, id);
    OpenerAtHand(s, s', id);
    forall conn | 0 <= conn < |s.conns| ensures s.conns[conn] != id && Owned(s', conn) && (conn in s'.since ==> Kept(s', conn)) {
      DialIsKept(s, s', id, conn);
    }
    assert Owned(s', |s.conns|);
  }

  /** A connection that is only now registered: nothing has been done about it. */
  lemma RegisteredIsKept(s: State, s': State, id: StreamId)
    requires AtHand(s) && Ledger(s) && OpenerOnly(s, s', id) && s.openers[id].phase.Dialled?
    requires var mine := s.openers[id].phase.conn;
             && OwnConn(s, id, mine) && Owned(s, mine) && s'.conns == s.conns && s'.openers[id].phase == Registered(mine)
             && s'.streams == s.streams[id := mine] && s'.since == s.since[mine := Handled(s)]
    ensures Kept(s', s.openers[id].phase.conn)
  {
    var mine := s.openers[id].phase.conn;
    assert !WriteFailed(s.writes, mine) && !WriteFailed(Tried(s', id), mine);
    if !s.reader.Waiting? && s.reader != Unregistering(id, false) {
      assert s.inbox[Handled(s)..] == [s.inbox[|s.inbox| - 1]];
    } else {
      assert Seen(s', id)[Handled(s)..] == [];
    }
  }

  lemma RegisterLeavesOthers(s: State, s': State, id: StreamId, conn: ConnId)
    requires OpenerOnly(s, s', id) && s.openers[id].phase.Dialled?
    requires var mine := s.openers[id].phase.conn;
             && OwnConn(s, id, mine) && s'.conns == s.conns && s'.openers[id].phase == Registered(mine)
             && s'.streams == s.streams[id := mine] && s'.since == s.since[mine := Handled(s)]
    requires conn < |s.conns| && s.conns[conn] != id && Owned(s, conn) && (conn in s.since ==> Kept(s, conn))
    ensures Owned(s', conn) && (conn in s.since ==> Kept(s', conn))
  {
  }

  lemma RegisterTracks(c: Config, s: State, id: StreamId)
    requires Enabled(s, Register(id)) && Tracked(s) && Conserved(s)
    ensures Tracked(Quiet(c, s, Register(id)))
  {
    var s', mine := Quiet(c, s, Register(id)), s.openers[id].phase.conn;
    assert OwnPlaces(s, id);
    OpenerAtHand(s, s', id);
    forall conn | 0 <= conn < |s'.conns| ensures Owned(s', conn) && (conn in s'.since ==> Kept(s', conn)) {
      if conn == mine {
        RegisteredIsKept(s, s', id);
      } else {
        RegisterLeavesOthers(s, s', id, conn);
      }
    }
  }

  lemma LeaveIsKept(s: State, s': State, id: StreamId, conn: ConnId)
    requires OpenerOnly(s, s', id) && s.openers[id].phase.Leaving? && OpenerLeft(s', id)
    requires s'.since == s.since && s'.conns == s.conns && s'.streams == s.streams - {id}
    requires conn < |s.conns| && Owned(s, conn) && (conn in s.since ==> Kept(s, conn))
    ensures Owned(s', conn) && (conn in s.since ==> Kept(s', conn))
  {
  }

  lemma LeavesTable(c: Config, s: State, id: StreamId)
    requires Enabled(s, Unregister(id))
    ensures var s' := Quiet(c, s, Unregister(id));
            && OpenerOnly(s, s', id) && s.openers[id].phase.Leaving? && OpenerLeft(s', id)
            && s'.since == s.since && s'.conns == s.conns && s'.streams == s.streams - {id}
  {
    assert Quiet(c, s, Unregister(id)).streams == s.streams - {id};
  }

  lemma LeaveTracks(c: Config, s: State, id: StreamId)
    requires Enabled(s, Unregister(id)) && Tracked(s)
    ensures Tracked(Quiet(c, s, Unregister(id)))
  {
    var s' := Quiet(c, s, Unregister(id));
    LeavesTable(c, s, id);
    OpenerAtHand(s, s', id);
    forall conn | 0 <= conn < |s'.conns| ensures Owned(s', conn) && (conn in s'.since ==> Kept(s', conn)) {
      LeaveIsKept(s, s', id, conn);
    }
  }

  lemma OpenerTracks(c: Config, s: State, a: Action)
    requires Enabled(s, a) && IsOpenerStep(a) && Tracked(s) && Conserved(s)
    ensures Tracked(Quiet(c, s, a))
  {
    if a.DialSucceeds? {
      DialTracks(c, s, a.id);
    } else if a.Register? {
      RegisterTracks(c, s, a.id);
    } else if a.Unregister? {
      LeaveTracks(c, s, a.id);
    } else {
      StepIsPlain(c, s, a);
      PlainTracks(s, Quiet(c, s, a), a.id);
    }
  }

  // ------------------------------------------------------------- every step

  lemma ReaderTracks(c: Config, s: State, a: Action)
    requires Enabled(s, a) && (a.ReaderClose? || a.ReaderReply? || a.WriterTake? || a.WriterWrite?) && Tracked(s)
    ensures Tracked(Quiet(c, s, a))
  {
    StaysTracked(s, Quiet(c, s, a));
  }

  lemma QuietTracks(c: Config, s: State, a: Action)
    requires Enabled(s, a) && Tracked(s) && Conserved(s)
    ensures Tracked(Quiet(c, s, a))
  {
    if a.Receive? {
      ReceiveTracks(c, s, a.bytes);
    } else if a.TcpWrite? {
      WriteTracks(c, s, a.n, a.ok);
    } else if a.ReaderUnregister? {
      UnregisterTracks(c, s);
    } else if IsOpenerStep(a) {
      OpenerTracks(c, s, a);
    } else {
      ReaderTracks(c, s, a);
    }
  }

  lemma SendingTracks(s: State, author: Author, m: Message)
    requires Tracked(s)
    ensures Tracked(SendFrame(s, author, m))
  {
    StaysTracked(s, SendFrame(s, author, m));
  }

  lemma TrackedStep(c: Config, s: State, a: Action)
    requires Enabled(s, a) && Tracked(s) && Conserved(s)
    ensures Tracked(Next(c, s, a))
  {
    QuietTracks(c, s, a);
    if Sends(c, s, a).Some? {
      SendingTracks(Quiet(c, s, a), Sends(c, s, a).value.author, Sends(c, s, a).value.msg);
    }
  }

  lemma {:induction false} TrackedOverRun(c: Config, s: State, acts: seq<Action>, s': State)
    requires Tracked(s) && Conserved(s) && Run(c, s, acts, s')
    ensures Tracked(s')
    decreases |acts|
  {
    if acts != [] {
      TrackedStep(c, s, acts[0]);
      ConservedStep(c, s, acts[0]);
      TrackedOverRun(c, Next(c, s, acts[0]), acts[1..], s');
    }
  }

  /** In every interleaving, whenever the reader waits for a frame: a connection that was
      registered still is exactly if no CLOSE for its stream was among the frames since, no
      write to it has failed, and its opener has not left. */
  lemma RegisteredExactly(c: Config, acts: seq<Action>, s: State, conn: ConnId)
    requires Run(c, Start, acts, s) && s.reader.Waiting? && conn in s.since
    ensures conn < |s.conns| && s.since[conn] <= |s.inbox|
    ensures var id := s.conns[conn];
            IsRegistered(s, id, conn)
            <==> !PeerClosed(s.inbox[s.since[conn]..], id) && !WriteFailed(s.writes, conn) && !OpenerLeft(s, id)
  {
    InvariantAtStart(c);
    TrackedOverRun(c, Start, acts, s);
    assert Kept(s, conn);
  }

  /** So the peer's CLOSE closes: once it has been dealt with, the connection is out of the
      table and closed, or its own opener is about to close it. */
  lemma PeerCloseCloses(c: Config, acts: seq<Action>, s: State, conn: ConnId, k: nat)
    requires Run(c, Start, acts, s) && s.reader.Waiting? && conn in s.since
    requires s.since[conn] <= k < |s.inbox| && conn < |s.conns| && IsClose(s.inbox[k], s.conns[conn])
    ensures !IsRegistered(s, s.conns[conn], conn)
    ensures conn in s.closed || ClosingByOpener(s, s.conns[conn], conn)
  {
    var frames := s.inbox[s.since[conn]..];
    assert frames[k - s.since[conn]] == s.inbox[k];
    RegisteredExactly(c, acts, s, conn);
    ConnectionsAreConserved(c, acts, s, conn);
    TrackedOverRun(c, Start, acts, s);
    assert Owned(s, conn);
  }

  // ------------------------------------------------------ a CLOSE that is lost

  lemma Extends(c: Config, s: State, acts: seq<Action>, t: State, a: Action) returns (acts': seq<Action>, t': State)
    requires Run(c, s, acts, t) && Enabled(t, a)
    ensures acts' == acts + [a] && t' == Next(c, t, a) && Run(c, s, acts', t')
    decreases |acts|
  {
    acts', t' := acts + [a], Next(c, t, a);
    if acts == [] {
      assert acts'[1..] == [];
    } else {
      var rest, end := Extends(c, Next(c, s, acts[0]), acts[1..], t, a);
      assert acts'[1..] == rest;
    }
  }

  /** The stream is being dialled, and the reader waits. */
  predicate BeingDialled(s: State, id: StreamId, t: Target) {
    s.reader.Waiting? && id in s.openers && s.openers[id].phase == Dialing(t) && s.streams == map[] && s.since == map[]
    && s.conns == [] && s.closed == []
  }

  lemma OpenStarts(c: Config, m: Message, t: Target) returns (acts: seq<Action>, s: State)
    requires m.typ == OP_OPEN && ParseOpen(AsText(m.payload)) == Some(t) && IsAllowedTarget(c, t)
    ensures Run(c, Start, acts, s) && BeingDialled(s, m.id, t) && s.inbox == [Wire(m)]
  {
    assert Run(c, Start, [], Start);
    DecodeOfWire(m);
    acts, s := Extends(c, Start, [], Start, Receive(Wire(m)));
  }

  lemma CloseIsIgnored(c: Config, acts: seq<Action>, s: State, id: StreamId, t: Target) returns (acts': seq<Action>, s': State)
    requires Run(c, Start, acts, s) && BeingDialled(s, id, t)
    ensures Run(c, Start, acts', s') && BeingDialled(s', id, t) && s'.inbox == s.inbox + [Wire(Message(id, OP_CLOSE, []))]
  {
    var m := Message(id, OP_CLOSE, []);
    DecodeOfWire(m);
    acts', s' := Extends(c, Start, acts, s, Receive(Wire(m)));
    assert s'.reader == Unregistering(id, false);
    acts', s' := Extends(c, Start, acts', s', ReaderUnregister);
  }

  /** A CLOSE that comes while its stream is still being dialled has no effect: the
      connection is registered afterwards and stays so. */
  lemma EarlyCloseIsLost(c: Config, m: Message, t: Target) returns (acts: seq<Action>, s: State)
    requires m.typ == OP_OPEN && ParseOpen(AsText(m.payload)) == Some(t) && IsAllowedTarget(c, t)
    ensures Run(c, Start, acts, s) && s.reader.Waiting? && s.inbox == [Wire(m), Wire(Message(m.id, OP_CLOSE, []))]
    ensures s.conns == [m.id] && IsRegistered(s, m.id, 0) && s.closed == []
  {
    acts, s := OpenStarts(c, m, t);
    acts, s := CloseIsIgnored(c, acts, s, m.id, t);
    acts, s := Extends(c, Start, acts, s, DialSucceeds(m.id));
    acts, s := Extends(c, Start, acts, s, Register(m.id));
  }
}
