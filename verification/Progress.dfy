/**
 Nothing in the tunnel gets stuck: from every state the reader can return to its next frame,
 every opener can end, and the writer can empty its queue, each by steps of its own.
 */
module Progress {
  import opened Text
  import opened Frame
  import opened Multiplexer
  import opened Closing

  lemma {:induction false} RunConcat(c: Config, s: State, xs: seq<Action>, t: State, ys: seq<Action>, u: State)
    requires Run(c, s, xs, t) && Run(c, t, ys, u)
    ensures Run(c, s, xs + ys, u)
    decreases |xs|
  {
    if xs == [] {
      assert xs + ys == ys;
    } else {
      RunConcat(c, Next(c, s, xs[0]), xs[1..], t, ys, u);
      assert (xs + ys)[1..] == xs[1..] + ys;
    }
  }

  lemma RunOne(c: Config, s: State, a: Action)
    requires Enabled(s, a)
    ensures Run(c, s, [a], Next(c, s, a))
  {
    assert Run(c, Next(c, s, a), [a][1..], Next(c, s, a));
  }

  /** A step followed by a run. */
  lemma RunAfter(c: Config, s: State, a: Action, acts: seq<Action>, u: State)
    requires Enabled(s, a) && Run(c, Next(c, s, a), acts, u)
    ensures Run(c, s, [a] + acts, u)
  {
    RunOne(c, s, a);
    RunConcat(c, s, [a], Next(c, s, a), acts, u);
  }

  // -------------------------------------------------------------- the reader

  predicate ByReaderItself(a: Action) {
    a.TcpWrite? || a.ReaderUnregister? || a.ReaderClose? || a.ReaderReply?
  }

  function ReaderLeft(r: Reader): nat {
    match r
    case Waiting => 0
    case Replying(_) => 1
    case ReaderClosing(_, _, _) => 2
    case Unregistering(_, _) => 3
    case Writing(_, _, _) => 4
  }

  function ReaderNext(r: Reader): Action
    requires !r.Waiting?
  {
    match r
    case Replying(_) => ReaderReply
    case ReaderClosing(_, _, _) => ReaderClose
    case Unregistering(_, _) => ReaderUnregister
    case Writing(_, _, payload) => TcpWrite(|payload|, true)
  }

  lemma ReaderNearer(c: Config, s: State)
    requires !s.reader.Waiting?
    ensures var a := ReaderNext(s.reader);
            Enabled(s, a) && ByReaderItself(a) && ReaderLeft(Next(c, s, a).reader) < ReaderLeft(s.reader)
  {
  }

  /** Whatever it is doing, the reader can come back to wait for a frame. */
  lemma {:induction false} ReaderReturns(c: Config, s: State) returns (acts: seq<Action>, s': State)
    ensures Run(c, s, acts, s') && s'.reader.Waiting? && (forall a :: a in acts ==> ByReaderItself(a))
    decreases ReaderLeft(s.reader)
  {
    acts, s' := [], s;
    if !s.reader.Waiting? {
      var a := ReaderNext(s.reader);
      ReaderNearer(c, s);
      acts, s' := ReaderReturns(c, Next(c, s, a));
      RunAfter(c, s, a, acts, s');
      acts := [a] + acts;
    }
  }

  // -------------------------------------------------------------- an opener

  function OpenerStepsLeft(p: Phase): nat {
    match p
    case Done(_) => 0
    case Closing(_) => 1
    case Failed(_) => 1
    case Leaving => 2
    case Ending => 3
    case Reading(_) => 4
    case Forwarding(_, _, eof) => if eof then 4 else 5
    case Registered(_) => 6
    case Dialled(_) => 7
    case Dialing(_) => 8
  }

  function OpenerNext(id: StreamId, p: Phase): Action
    requires !p.Done?
  {
    match p
    case Dialing(_) => DialSucceeds(id)
    case Failed(_) => SendError(id)
    case Dialled(_) => Register(id)
    case Registered(_) => Announce(id)
    case Reading(_) => TcpRead(id, [], true)
    case Forwarding(_, _, _) => Forward(id)
    case Ending => SendClose(id)
    case Leaving => Unregister(id)
    case Closing(_) => CloseConn(id)
  }

  /** The end of the connection has been read. */
  predicate Ended(p: Phase) {
    (p.Forwarding? && p.eof) || p.Ending? || p.Leaving? || p.Closing? || p == Done(true)
  }

  ghost predicate OpenerNearer(s: State, s': State, id: StreamId) {
    && id in s.openers && id in s'.openers
    && OpenerStepsLeft(s'.openers[id].phase) < OpenerStepsLeft(s.openers[id].phase)
    && (Ended(s.openers[id].phase) ==> Ended(s'.openers[id].phase))
    && (s'.openers[id].phase == Done(false) ==> s.openers[id].phase.Failed?)
  }

  predicate Early(p: Phase) {
    p.Dialing? || p.Failed? || p.Dialled? || p.Registered?
  }

  lemma EarlyNearer(c: Config, s: State, id: StreamId)
    requires id in s.openers && Early(s.openers[id].phase)
    ensures var a := OpenerNext(id, s.openers[id].phase);
            Enabled(s, a) && OpenerNearer(s, Quiet(c, s, a), id)
  {
  }

  lemma LateNearer(c: Config, s: State, id: StreamId)
    requires id in s.openers && !Early(s.openers[id].phase) && !s.openers[id].phase.Done?
    ensures var a := OpenerNext(id, s.openers[id].phase);
            Enabled(s, a) && OpenerNearer(s, Quiet(c, s, a), id)
  {
  }

  lemma NextNearer(c: Config, s: State, id: StreamId)
    requires id in s.openers && !s.openers[id].phase.Done?
    ensures var a := OpenerNext(id, s.openers[id].phase);
            Enabled(s, a) && IsOpenerStep(a) && a.id == id && OpenerNearer(s, Next(c, s, a), id)
  {
    var a := OpenerNext(id, s.openers[id].phase);
    if Early(s.openers[id].phase) {
      EarlyNearer(c, s, id);
    } else {
      LateNearer(c, s, id);
    }
    NextIsAfter(c, s, a);
  }

  /** Every opener can end by its own steps, and does so without reading again once it has
      read the end of its connection. */
  lemma {:induction false} OpenerEnds(c: Config, s: State, id: StreamId) returns (acts: seq<Action>, s': State)
    requires id in s.openers
    ensures Run(c, s, acts, s') && (forall a :: a in acts ==> IsOpenerStep(a) && a.id == id)
    ensures id in s'.openers && s'.openers[id].phase.Done?
    ensures s'.openers[id].phase == Done(false) ==> s.openers[id].phase.Failed? || s.openers[id].phase == Done(false)
    ensures Ended(s.openers[id].phase) ==> forall a :: a in acts ==> !a.TcpRead?
    decreases OpenerStepsLeft(s.openers[id].phase)
  {
    acts, s' := [], s;
    if !s.openers[id].phase.Done? {
      var a := OpenerNext(id, s.openers[id].phase);
      NextNearer(c, s, id);
      acts, s' := OpenerEnds(c, Next(c, s, a), id);
      RunAfter(c, s, a, acts, s');
      acts := [a] + acts;
    }
  }

  lemma EofIsRead(c: Config, s: State, id: StreamId, chunk: seq<byte>)
    requires id in s.openers && s.openers[id].phase.Reading? && |chunk| <= READ_BUFFER
    ensures Enabled(s, TcpRead(id, chunk, true))
    ensures var s' := Next(c, s, TcpRead(id, chunk, true)); id in s'.openers && Ended(s'.openers[id].phase)
  {
  }

  /** With the end of its connection, and the bytes that may come with it, an opener is done
      reading: what is left are its own steps to the end. */
  lemma EofEnds(c: Config, s: State, id: StreamId, chunk: seq<byte>) returns (acts: seq<Action>, s': State)
    requires id in s.openers && s.openers[id].phase.Reading? && |chunk| <= READ_BUFFER
    ensures Run(c, s, [TcpRead(id, chunk, true)] + acts, s') && id in s'.openers && s'.openers[id].phase == Done(true)
    ensures forall a :: a in acts ==> IsOpenerStep(a) && a.id == id && !a.TcpRead?
  {
    EofIsRead(c, s, id, chunk);
    acts, s' := OpenerEnds(c, Next(c, s, TcpRead(id, chunk, true)), id);
    RunAfter(c, s, TcpRead(id, chunk, true), acts, s');
  }

  /** In every interleaving: an opener that is done has offered its CLOSE last, and its
      connection is out of the table, closed or with the reader that is about to close it. */
  lemma DoneHasClosed(c: Config, acts: seq<Action>, s: State, conn: ConnId)
    requires Run(c, Start, acts, s) && conn < |s.conns| && At(s, s.conns[conn], (p: Phase) => p == Done(true))
    ensures var id := s.conns[conn];
            && !IsRegistered(s, id, conn) && (conn in s.closed || ClosingByReader(s, conn))
            && ByTheOpener(s.offers, id)
               == Greeting(id) + DataFrames(id, s.openers[id].sent) + [Message(id, OP_CLOSE, [])]
            && Flat(s.openers[id].sent) == s.openers[id].read
  {
    var id := s.conns[conn];
    InvariantAtStart(c);
    InvariantOverRun(c, Start, acts, s);
    TrackedOverRun(c, Start, acts, s);
    ConnectionsAreConserved(c, acts, s, conn);
    assert FollowsScript(s, id) && Owned(s, conn) && Kept(s, conn);
  }

  // -------------------------------------------------------------- the writer

  predicate ByWriter(a: Action) {
    a == WriterTake || a == WriterWrite(true)
  }

  lemma WriterTakes(c: Config, s: State)
    requires !s.writerDead && s.inFlight.None? && s.queue != []
    ensures Enabled(s, WriterTake)
    ensures Next(c, s, WriterTake) == s.(inFlight := Some(s.queue[0]), queue := s.queue[1..])
  {
  }

  lemma WriterWrites(c: Config, s: State)
    requires !s.writerDead && s.inFlight.Some?
    ensures Enabled(s, WriterWrite(true))
    ensures Next(c, s, WriterWrite(true)) == s.(wire := s.wire + [s.inFlight.value], inFlight := None)
  {
  }

  /** As long as the websocket takes them, all frames of the queue reach the wire, in order. */
  lemma {:induction false} WriterEmpties(c: Config, s: State) returns (acts: seq<Action>, s': State)
    requires !s.writerDead
    ensures Run(c, s, acts, s') && (forall a :: a in acts ==> ByWriter(a))
    ensures s' == s.(wire := s.wire + InFlight(s) + s.queue, inFlight := None, queue := [])
    decreases 2 * |s.queue| + |InFlight(s)|
  {
    acts, s' := [], s;
    if s.inFlight.Some? {
      WriterWrites(c, s);
      acts, s' := WriterEmpties(c, Next(c, s, WriterWrite(true)));
      RunAfter(c, s, WriterWrite(true), acts, s');
      acts := [WriterWrite(true)] + acts;
      assert s.wire + [s.inFlight.value] + [] + s.queue == s.wire + InFlight(s) + s.queue;
    } else if s.queue != [] {
      WriterTakes(c, s);
      acts, s' := WriterEmpties(c, Next(c, s, WriterTake));
      RunAfter(c, s, WriterTake, acts, s');
      acts := [WriterTake] + acts;
      assert s.wire + [s.queue[0]] + s.queue[1..] == s.wire + InFlight(s) + s.queue;
    } else {
      assert s.wire + InFlight(s) + s.queue == s.wire;
    }
  }

  // --------------------------------------------------------------- the queue

  /** A frame is dropped only after at least 256 others were offered. */
  predicate DroppedLate(offers: seq<Offer>) {
    forall k :: 0 <= k < |offers| && !offers[k].accepted ==> k >= 256
  }

  lemma {:induction false} AcceptedFits(offers: seq<Offer>)
    ensures |Accepted(offers)| <= |offers|
  {
    if offers != [] {
      AcceptedFits(offers[..|offers| - 1]);
    }
  }

  lemma DroppedLateStep(c: Config, s: State, a: Action)
    requires Enabled(s, a) && Pipeline(s) && DroppedLate(s.offers)
    ensures DroppedLate(Next(c, s, a).offers)
  {
    OffersAfter(c, s, a);
    AcceptedFits(s.offers);
  }

  lemma {:induction false} DroppedLateOverRun(c: Config, s: State, acts: seq<Action>, s': State)
    requires Pipeline(s) && DroppedLate(s.offers) && Run(c, s, acts, s')
    ensures DroppedLate(s'.offers)
    decreases |acts|
  {
    if acts != [] {
      DroppedLateStep(c, s, acts[0]);
      PipelineStep(c, s, acts[0]);
      DroppedLateOverRun(c, Next(c, s, acts[0]), acts[1..], s');
    }
  }

  /** In every interleaving none of the first 256 frames is dropped. */
  lemma FirstFramesAreKept(c: Config, acts: seq<Action>, s: State)
    requires Run(c, Start, acts, s)
    ensures forall k :: 0 <= k < |s.offers| && k < 256 ==> s.offers[k].accepted
  {
    InvariantAtStart(c);
    DroppedLateOverRun(c, Start, acts, s);
  }
}
