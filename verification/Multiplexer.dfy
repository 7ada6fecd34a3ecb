/**
 One tunnel connection, from its first frame to the start of its cleanup, as an
 interleaving of atomic steps: a reader, a writer behind a bounded queue that drops when
 full, and one opener goroutine per stream, all sharing the stream table.

 A step is one access to shared state.  OPEN frames carry distinct stream ids; the
 peer, TCP and the scheduler choose everything else.
 */
module Multiplexer {
  import opened Text
  import opened Frame
  import opened Allowlist

  /** The index of a connection in the order in which dials returned one. */
  type ConnId = nat

  const WRITE_CHANNEL_SIZE := 256
  const READ_BUFFER := 32 * 1024

  datatype Config = Config(parse: AddressParser, rules: seq<Rule>)

  /** Where an opener goroutine is. */
  datatype Phase =
    | Dialing(target: Target)
    | Failed(error: seq<byte>)
    | Dialled(conn: ConnId)
    | Registered(conn: ConnId)
    | Reading(conn: ConnId)
    | Forwarding(conn: ConnId, chunk: seq<byte>, eof: bool)
    | Ending
    | Leaving
    | Closing(conn: ConnId)
    | Done(answeredOk: bool)

  /** An opener with the chunks it has passed to `sendFrame` and the bytes it has read. */
  datatype Opener = Opener(phase: Phase, sent: seq<seq<byte>>, read: seq<byte>)

  datatype Reader =
    | Waiting
    | Writing(id: StreamId, conn: ConnId, payload: seq<byte>)
    | Unregistering(id: StreamId, reply: bool)
    | ReaderClosing(id: StreamId, conn: ConnId, reply: bool)
    | Replying(id: StreamId)

  datatype Author = ByReader | ByOpener(id: StreamId)

  /** One call of `sendFrame` and whether the queue had room. */
  datatype Offer = Offer(msg: Message, author: Author, accepted: bool)

  datatype Dial = Dial(id: StreamId, target: Target)

  /** Bytes handed to a TCP connection by one write, and whether it ended without an error. */
  datatype TcpOut = TcpOut(conn: ConnId, bytes: seq<byte>, ok: bool)

  datatype State = State(
    // shared state
    streams: map<StreamId, ConnId>,
    queue: seq<Message>,
    // control state
    openers: map<StreamId, Opener>,
    reader: Reader,
    inFlight: Option<Message>,
    writerDead: bool,
    // history
    wire: seq<Message>,
    inbox: seq<seq<byte>>,
    openIds: set<StreamId>,
    dials: seq<Dial>,
    conns: seq<StreamId>,
    closed: seq<ConnId>,
    offers: seq<Offer>,
    writes: seq<TcpOut>,
    since: map<ConnId, nat>  // how many frames the reader was done with when a connection was registered
  )

  const Start := State(map[], [], map[], Waiting, None, false, [], [], {}, [], [], [], [], [], map[])

  datatype Action =
    | Receive(bytes: seq<byte>)
    | TcpWrite(n: nat, ok: bool)
    | ReaderUnregister
    | ReaderClose
    | ReaderReply
    | DialFails(id: StreamId, error: seq<byte>)
    | DialSucceeds(id: StreamId)
    | SendError(id: StreamId)
    | Register(id: StreamId)
    | Announce(id: StreamId)
    | TcpRead(id: StreamId, chunk: seq<byte>, eof: bool)
    | Forward(id: StreamId)
    | SendClose(id: StreamId)
    | Unregister(id: StreamId)
    | CloseConn(id: StreamId)
    | WriterTake
    | WriterWrite(ok: bool)

  ghost predicate IsAllowedTarget(c: Config, t: Target) {
    (forall r :: r in c.rules ==> ValidRule(r)) && Allowed(c.parse, c.rules, t.host, t.port)
  }

  predicate At(s: State, id: StreamId, test: Phase -> bool) {
    id in s.openers && test(s.openers[id].phase)
  }

  ghost predicate Enabled(s: State, a: Action) {
    match a
    case Receive(bytes) =>
      s.reader.Waiting?
      && (Decode(bytes).Some? && Decode(bytes).value.typ == OP_OPEN ==> Decode(bytes).value.id !in s.openIds)
    case TcpWrite(n, ok) => s.reader.Writing? && n <= |s.reader.payload| && (ok ==> n == |s.reader.payload|)
    case ReaderUnregister => s.reader.Unregistering?
    case ReaderClose => s.reader.ReaderClosing?
    case ReaderReply => s.reader.Replying?
    case DialFails(id, _) => At(s, id, (p: Phase) => p.Dialing?)
    case DialSucceeds(id) => At(s, id, (p: Phase) => p.Dialing?)
    case SendError(id) => At(s, id, (p: Phase) => p.Failed?)
    case Register(id) => At(s, id, (p: Phase) => p.Dialled?)
    case Announce(id) => At(s, id, (p: Phase) => p.Registered?)
    case TcpRead(id, chunk, _) => At(s, id, (p: Phase) => p.Reading?) && |chunk| <= READ_BUFFER
    case Forward(id) => At(s, id, (p: Phase) => p.Forwarding?)
    case SendClose(id) => At(s, id, (p: Phase) => p.Ending?)
    case Unregister(id) => At(s, id, (p: Phase) => p.Leaving?)
    case CloseConn(id) => At(s, id, (p: Phase) => p.Closing?)
    case WriterTake => s.inFlight.None? && !s.writerDead && s.queue != []
    case WriterWrite(_) => s.inFlight.Some? && !s.writerDead
  }

  /** `sendFrame`: never blocks, drops when the queue is full. */
  function SendFrame(s: State, author: Author, m: Message): State {
    if |s.queue| < WRITE_CHANNEL_SIZE then
      s.(queue := s.queue + [m], offers := s.offers + [Offer(m, author, true)])
    else
      s.(offers := s.offers + [Offer(m, author, false)])
  }

  datatype Sending = Sending(author: Author, msg: Message)

  function Bytes(text: string): seq<byte> {
    seq(|text|, i requires 0 <= i < |text| => (text[i] as int % 0x100) as byte)
  }

  function Refusal(id: StreamId, text: string): Option<Sending> {
    Some(Sending(ByReader, Message(id, OP_OPEN_ERR, Bytes(text))))
  }

  /** The call of `sendFrame` a step makes, if it makes one. */
  ghost function Sends(c: Config, s: State, a: Action): Option<Sending>
    requires Enabled(s, a)
  {
    match a
    case Receive(bytes) =>
      if Decode(bytes).None? || Decode(bytes).value.typ != OP_OPEN then None
      else
        var m := Decode(bytes).value;
        var t := ParseOpen(AsText(m.payload));
        if t.None? then Refusal(m.id, "invalid OPEN payload")
        else if !IsAllowedTarget(c, t.value) then Refusal(m.id, "denied")
        else None
    case ReaderReply => Some(Sending(ByReader, Message(s.reader.id, OP_CLOSE, [])))
    case SendError(id) => Some(Sending(ByOpener(id), Message(id, OP_OPEN_ERR, s.openers[id].phase.error)))
    case Announce(id) => Some(Sending(ByOpener(id), Message(id, OP_OPEN_OK, [])))
    case Forward(id) => Some(Sending(ByOpener(id), Message(id, OP_DATA, s.openers[id].phase.chunk)))
    case SendClose(id) => Some(Sending(ByOpener(id), Message(id, OP_CLOSE, [])))
    case _ => None
  }

  function Moved(s: State, id: StreamId, p: Phase): State
    requires id in s.openers
  {
    s.(openers := s.openers[id := s.openers[id].(phase := p)])
  }

  /** How many frames the reader is done with: all but the one it is at work on. */
  function Handled(s: State): nat {
    if s.reader.Waiting? || s.inbox == [] then |s.inbox| else |s.inbox| - 1
  }

  /** The reader's switch on the frame type, without what it sends. */
  ghost function OnFrame(c: Config, s: State, m: Message): State {
    if m.typ == OP_OPEN then
      var t := ParseOpen(AsText(m.payload));
      if t.None? || !IsAllowedTarget(c, t.value) then s.(openIds := s.openIds + {m.id})
      else s.(openIds := s.openIds + {m.id}, openers := s.openers[m.id := Opener(Dialing(t.value), [], [])],
              dials := s.dials + [Dial(m.id, t.value)])
    else if m.typ == OP_DATA then
      if m.id in s.streams then s.(reader := Writing(m.id, s.streams[m.id], m.payload)) else s
    else if m.typ == OP_CLOSE then s.(reader := Unregistering(m.id, false))
    else s
  }

  /** A step without what it sends. */
  ghost function Quiet(c: Config, s: State, a: Action): State
    requires Enabled(s, a)
  {
    match a
    case Receive(bytes) =>
      var s' := s.(inbox := s.inbox + [bytes]);
      if Decode(bytes).None? then s' else OnFrame(c, s', Decode(bytes).value)
    case TcpWrite(n, ok) =>
      var Writing(id, conn, payload) := s.reader;
      s.(writes := s.writes + [TcpOut(conn, payload[..n], ok)], reader := if ok then Waiting else Unregistering(id, true))
    case ReaderUnregister =>
      var Unregistering(id, reply) := s.reader;
      if id in s.streams then s.(streams := s.streams - {id}, reader := ReaderClosing(id, s.streams[id], reply))
      else s.(reader := if reply then Replying(id) else Waiting)
    case ReaderClose =>
      var ReaderClosing(id, conn, reply) := s.reader;
      s.(closed := s.closed + [conn], reader := if reply then Replying(id) else Waiting)
    case ReaderReply => s.(reader := Waiting)
    case DialFails(id, error) => Moved(s, id, Failed(error))
    case DialSucceeds(id) => Moved(s, id, Dialled(|s.conns|)).(conns := s.conns + [id])
    case SendError(id) => Moved(s, id, Done(false))
    case Register(id) =>
      var conn := s.openers[id].phase.conn;
      Moved(s, id, Registered(conn)).(streams := s.streams[id := conn], since := s.since[conn := Handled(s)])
    case Announce(id) => Moved(s, id, Reading(s.openers[id].phase.conn))
    case TcpRead(id, chunk, eof) =>
      var o := s.openers[id];
      var p := if chunk != [] then Forwarding(o.phase.conn, chunk, eof) else if eof then Ending else o.phase;
      s.(openers := s.openers[id := o.(phase := p, read := o.read + chunk)])
    case Forward(id) =>
      var o := s.openers[id];
      var p := if o.phase.eof then Ending else Reading(o.phase.conn);
      s.(openers := s.openers[id := o.(phase := p, sent := o.sent + [o.phase.chunk])])
    case SendClose(id) => Moved(s, id, Leaving)
    case Unregister(id) =>
      if id in s.streams then Moved(s, id, Closing(s.streams[id])).(streams := s.streams - {id})
      else Moved(s, id, Done(true))
    case CloseConn(id) =>
      Moved(s, id, Done(true)).(closed := s.closed + [s.openers[id].phase.conn])
    case WriterTake => s.(inFlight := Some(s.queue[0]), queue := s.queue[1..])
    case WriterWrite(ok) =>
      if ok then s.(wire := s.wire + [s.inFlight.value], inFlight := None) else s.(writerDead := true)
  }

  ghost function Next(c: Config, s: State, a: Action): State
    requires Enabled(s, a)
  {
    match Sends(c, s, a)
    case None => Quiet(c, s, a)
    case Some(Sending(author, m)) => SendFrame(Quiet(c, s, a), author, m)
  }

  /** `acts` takes the tunnel from `s` to `s'`. */
  ghost predicate Run(c: Config, s: State, acts: seq<Action>, s': State)
    decreases |acts|
  {
    if acts == [] then s == s'
    else Enabled(s, acts[0]) && Run(c, Next(c, s, acts[0]), acts[1..], s')
  }

  // ------------------------------------------------------ reading the history

  function Accepted(offers: seq<Offer>): seq<Message> {
    if offers == [] then []
    else
      var rest, o := Accepted(offers[..|offers| - 1]), offers[|offers| - 1];
      if o.accepted then rest + [o.msg] else rest
  }

  function Offered(offers: seq<Offer>): seq<Message> {
    if offers == [] then [] else Offered(offers[..|offers| - 1]) + [offers[|offers| - 1].msg]
  }

  function ByTheOpener(offers: seq<Offer>, id: StreamId): seq<Message> {
    if offers == [] then []
    else
      var rest, o := ByTheOpener(offers[..|offers| - 1], id), offers[|offers| - 1];
      if o.author == ByOpener(id) then rest + [o.msg] else rest
  }

  predicate IsStreamFrame(m: Message, id: StreamId) {
    m.id == id && (m.typ == OP_OPEN_OK || m.typ == OP_DATA)
  }

  predicate IsAnswer(m: Message, id: StreamId) {
    m.id == id && (m.typ == OP_OPEN_OK || m.typ == OP_OPEN_ERR)
  }

  /** The OPEN_OK and DATA frames of one stream. */
  function Stream(ms: seq<Message>, id: StreamId): seq<Message> {
    if ms == [] then []
    else
      var rest, m := Stream(ms[..|ms| - 1], id), ms[|ms| - 1];
      if IsStreamFrame(m, id) then rest + [m] else rest
  }

  /** How many answers, OPEN_OK or OPEN_ERR, a stream has been offered. */
  function Answers(offers: seq<Offer>, id: StreamId): nat {
    if offers == [] then 0
    else Answers(offers[..|offers| - 1], id) + One(IsAnswer(offers[|offers| - 1].msg, id))
  }

  function One(b: bool): nat {
    if b then 1 else 0
  }

  function DataFrames(id: StreamId, chunks: seq<seq<byte>>): seq<Message> {
    if chunks == [] then []
    else DataFrames(id, chunks[..|chunks| - 1]) + [Message(id, OP_DATA, chunks[|chunks| - 1])]
  }

  /** The bytes carried by the DATA frames among `ms`. */
  function Payload(ms: seq<Message>): seq<byte> {
    if ms == [] then []
    else
      var rest, m := Payload(ms[..|ms| - 1]), ms[|ms| - 1];
      if m.typ == OP_DATA then rest + m.payload else rest
  }

  function Flat(chunks: seq<seq<byte>>): seq<byte> {
    if chunks == [] then [] else Flat(chunks[..|chunks| - 1]) + chunks[|chunks| - 1]
  }

  predicate Subsequence<T(==)>(a: seq<T>, b: seq<T>) {
    a == []
    || (b != [] && (Subsequence(a, b[..|b| - 1])
                    || (a[|a| - 1] == b[|b| - 1] && Subsequence(a[..|a| - 1], b[..|b| - 1]))))
  }

  lemma Appended(offers: seq<Offer>, o: Offer, id: StreamId)
    ensures Accepted(offers + [o]) == if o.accepted then Accepted(offers) + [o.msg] else Accepted(offers)
    ensures Offered(offers + [o]) == Offered(offers) + [o.msg]
    ensures ByTheOpener(offers + [o], id)
            == if o.author == ByOpener(id) then ByTheOpener(offers, id) + [o.msg] else ByTheOpener(offers, id)
    ensures Answers(offers + [o], id) == Answers(offers, id) + One(IsAnswer(o.msg, id))
  {
    assert (offers + [o])[..|offers|] == offers;
  }

  /** The offers after a step. */
  ghost function NewOffer(c: Config, s: State, a: Action): Option<Offer>
    requires Enabled(s, a)
  {
    match Sends(c, s, a)
    case None => None
    case Some(Sending(author, m)) => Some(Offer(m, author, |s.queue| < WRITE_CHANNEL_SIZE))
  }

  predicate IsOpenerStep(a: Action) {
    a.DialFails? || a.DialSucceeds? || a.SendError? || a.Register? || a.Announce? || a.TcpRead? || a.Forward?
    || a.SendClose? || a.Unregister? || a.CloseConn?
  }

  lemma OpenerKeepsOffers(c: Config, s: State, a: Action)
    requires Enabled(s, a) && IsOpenerStep(a)
    ensures Quiet(c, s, a).offers == s.offers
  {
  }

  lemma FrameKeepsOffers(c: Config, s: State, m: Message)
    ensures OnFrame(c, s, m).offers == s.offers
  {
  }

  lemma QuietKeepsOffers(c: Config, s: State, a: Action)
    requires Enabled(s, a)
    ensures Quiet(c, s, a).offers == s.offers
  {
    if IsOpenerStep(a) {
      OpenerKeepsOffers(c, s, a);
    } else if a.Receive? && Decode(a.bytes).Some? {
      FrameKeepsOffers(c, s.(inbox := s.inbox + [a.bytes]), Decode(a.bytes).value);
    }
  }

  lemma QuietKeepsQueueLength(c: Config, s: State, a: Action)
    requires Enabled(s, a) && Sends(c, s, a).Some?
    ensures Quiet(c, s, a).queue == s.queue
  {
  }

  lemma OffersAfter(c: Config, s: State, a: Action)
    requires Enabled(s, a)
    ensures Next(c, s, a).offers == match NewOffer(c, s, a) case None => s.offers case Some(o) => s.offers + [o]
  {
    QuietKeepsOffers(c, s, a);
    if Sends(c, s, a).Some? {
      QuietKeepsQueueLength(c, s, a);
    }
  }

  // -------------------------------------------------- the writer's pipeline

  function InFlight(s: State): seq<Message> {
    if s.inFlight.Some? then [s.inFlight.value] else []
  }

  /** What the queue accepted is what was written, then what is being written, then what waits. */
  ghost predicate Pipeline(s: State) {
    Accepted(s.offers) == s.wire + InFlight(s) + s.queue && |s.queue| <= WRITE_CHANNEL_SIZE
  }

  lemma SendFrameKeepsPipeline(s: State, author: Author, m: Message)
    requires Pipeline(s)
    ensures Pipeline(SendFrame(s, author, m))
  {
    Appended(s.offers, Offer(m, author, |s.queue| < WRITE_CHANNEL_SIZE), 0);
  }

  predicate SamePipeline(s: State, s': State) {
    s'.wire == s.wire && s'.inFlight == s.inFlight && s'.queue == s.queue && s'.offers == s.offers
  }

  lemma OpenerKeepsPipeline(c: Config, s: State, a: Action)
    requires Enabled(s, a) && IsOpenerStep(a)
    ensures SamePipeline(s, Quiet(c, s, a))
  {
  }

  lemma FrameKeepsPipeline(c: Config, s: State, m: Message)
    ensures SamePipeline(s, OnFrame(c, s, m))
  {
  }

  lemma QuietKeepsPipeline(c: Config, s: State, a: Action)
    requires Enabled(s, a) && !a.WriterTake? && !a.WriterWrite?
    ensures SamePipeline(s, Quiet(c, s, a))
  {
    if IsOpenerStep(a) {
      OpenerKeepsPipeline(c, s, a);
    } else if a.Receive? && Decode(a.bytes).Some? {
      FrameKeepsPipeline(c, s.(inbox := s.inbox + [a.bytes]), Decode(a.bytes).value);
    }
  }

  lemma PipelineStep(c: Config, s: State, a: Action)
    requires Enabled(s, a) && Pipeline(s)
    ensures Pipeline(Next(c, s, a))
  {
    if a.WriterTake? {
      assert s.queue == [s.queue[0]] + s.queue[1..];
    } else if a.WriterWrite? {
    } else {
      var q := Quiet(c, s, a);
      QuietKeepsPipeline(c, s, a);
      if Sends(c, s, a).Some? {
        var m := Sends(c, s, a).value;
        SendFrameKeepsPipeline(q, m.author, m.msg);
      }
    }
  }

  // --------------------------------------------------- what an opener offers

  function Greeting(id: StreamId): seq<Message> {
    [Message(id, OP_OPEN_OK, [])]
  }

  predicate BeforeAnswer(p: Phase) {
    p.Dialing? || p.Failed? || p.Dialled? || p.Registered?
  }

  predicate AfterClose(p: Phase) {
    p.Leaving? || p.Closing? || p == Done(true)
  }

  /** `out` is what an opener in this phase has offered, and `read` what it has read, if
      `data` and `flat` are the frames and the bytes of the chunks it has forwarded.  The
      text of an OPEN_ERR is free. */
  ghost predicate Shape(id: StreamId, p: Phase, read: seq<byte>, data: seq<Message>, flat: seq<byte>, out: seq<Message>) {
    && (if BeforeAnswer(p) then out == [] && data == []
        else if p == Done(false) then |out| == 1 && out[0].typ == OP_OPEN_ERR && data == []
        else if AfterClose(p) then out == Greeting(id) + data + [Message(id, OP_CLOSE, [])]
        else out == Greeting(id) + data)
    && read == if p.Forwarding? then flat + p.chunk else flat
  }

  ghost predicate Script(id: StreamId, o: Opener, out: seq<Message>) {
    Shape(id, o.phase, o.read, DataFrames(id, o.sent), Flat(o.sent), out)
  }

  ghost predicate FollowsScript(s: State, id: StreamId) {
    var out := ByTheOpener(s.offers, id);
    if id in s.openers then id in s.openIds && Script(id, s.openers[id], out) else out == []
  }

  predicate WellAuthored(o: Offer) {
    match o.author
    case ByOpener(id) => o.msg.id == id
    case ByReader => o.msg.typ == OP_OPEN_ERR || o.msg.typ == OP_CLOSE
  }

  ghost predicate Scripts(s: State) {
    (forall id :: FollowsScript(s, id)) && (forall o :: o in s.offers ==> WellAuthored(o))
  }

  lemma SentOneMore(id: StreamId, chunks: seq<seq<byte>>, chunk: seq<byte>)
    ensures DataFrames(id, chunks + [chunk]) == DataFrames(id, chunks) + [Message(id, OP_DATA, chunk)]
    ensures Flat(chunks + [chunk]) == Flat(chunks) + chunk
  {
    assert (chunks + [chunk])[..|chunks|] == chunks;
  }

  /** The stream a step concerns, with any id when it concerns none. */
  function Subject(s: State, a: Action): StreamId {
    match a
    case Receive(bytes) => if Decode(bytes).Some? then Decode(bytes).value.id else 0
    case DialFails(id, _) => id
    case DialSucceeds(id) => id
    case SendError(id) => id
    case Register(id) => id
    case Announce(id) => id
    case TcpRead(id, _, _) => id
    case Forward(id) => id
    case SendClose(id) => id
    case Unregister(id) => id
    case CloseConn(id) => id
    case _ => 0
  }

  predicate OpenerUnchanged(s: State, s': State, id: StreamId) {
    (id in s.openers <==> id in s'.openers) && (id in s.openers ==> s'.openers[id] == s.openers[id])
  }

  lemma OpenerLeavesOthers(c: Config, s: State, a: Action, id: StreamId)
    requires Enabled(s, a) && IsOpenerStep(a) && id != a.id
    ensures OpenerUnchanged(s, Quiet(c, s, a), id) && Quiet(c, s, a).openIds == s.openIds
    ensures Sends(c, s, a).Some? ==> Sends(c, s, a).value.author == ByOpener(a.id) && Sends(c, s, a).value.msg.id == a.id
  {
  }

  lemma FrameLeavesOthers(c: Config, s: State, m: Message, id: StreamId)
    requires id != m.id
    ensures OpenerUnchanged(s, OnFrame(c, s, m), id) && (id in s.openIds <==> id in OnFrame(c, s, m).openIds)
  {
  }

  lemma ReaderLeavesOpeners(c: Config, s: State, a: Action)
    requires Enabled(s, a) && !IsOpenerStep(a) && !a.Receive?
    ensures Quiet(c, s, a).openers == s.openers && Quiet(c, s, a).openIds == s.openIds
  {
  }

  lemma ReaderSends(c: Config, s: State, a: Action, id: StreamId)
    requires Enabled(s, a) && !IsOpenerStep(a)
    ensures Sends(c, s, a).Some? ==> Sends(c, s, a).value.author == ByReader
                                     && (id != Subject(s, a) ==> !IsAnswer(Sends(c, s, a).value.msg, id))
  {
  }

  lemma ReaderLeavesOthers(c: Config, s: State, a: Action, id: StreamId)
    requires Enabled(s, a) && !IsOpenerStep(a) && id != Subject(s, a)
    ensures OpenerUnchanged(s, Quiet(c, s, a), id) && (id in s.openIds <==> id in Quiet(c, s, a).openIds)
    ensures Sends(c, s, a).Some? ==> Sends(c, s, a).value.author == ByReader && !IsAnswer(Sends(c, s, a).value.msg, id)
  {
    ReaderSends(c, s, a, id);
    if !a.Receive? {
      ReaderLeavesOpeners(c, s, a);
    } else if Decode(a.bytes).Some? {
      FrameLeavesOthers(c, s.(inbox := s.inbox + [a.bytes]), Decode(a.bytes).value, id);
    }
  }

  lemma OthersUnchanged(c: Config, s: State, a: Action, id: StreamId)
    requires Enabled(s, a) && id != Subject(s, a)
    ensures var s' := Next(c, s, a);
            OpenerUnchanged(s, s', id) && (id in s.openIds <==> id in s'.openIds)
            && (NewOffer(c, s, a).Some? ==> NewOffer(c, s, a).value.author != ByOpener(id)
                                            && !IsAnswer(NewOffer(c, s, a).value.msg, id))
  {
    if IsOpenerStep(a) {
      assert a.id == Subject(s, a);
      OpenerLeavesOthers(c, s, a, id);
    } else {
      ReaderLeavesOthers(c, s, a, id);
    }
  }

  lemma ForwardKeepsScript(id: StreamId, o: Opener, o': Opener, out: seq<Message>)
    requires o.phase.Forwarding? && Script(id, o, out)
    requires o' == o.(phase := o'.phase, sent := o.sent + [o.phase.chunk]) && (o'.phase.Ending? || o'.phase.Reading?)
    ensures Script(id, o', out + [Message(id, OP_DATA, o.phase.chunk)])
  {
    SentOneMore(id, o.sent, o.phase.chunk);
    assert Greeting(id) + DataFrames(id, o'.sent)
        == Greeting(id) + DataFrames(id, o.sent) + [Message(id, OP_DATA, o.phase.chunk)];
  }

  /** What the opener has offered once the step has sent what it sends. */
  ghost function OutAfter(c: Config, s: State, a: Action, out: seq<Message>): seq<Message>
    requires Enabled(s, a)
  {
    match Sends(c, s, a) case None => out case Some(m) => out + [m.msg]
  }

  lemma AnsweringKeepsScript(c: Config, s: State, a: Action, out: seq<Message>)
    requires Enabled(s, a) && (a.DialFails? || a.DialSucceeds? || a.Register? || a.SendError? || a.Announce?)
    requires a.id in s.openers && Script(a.id, s.openers[a.id], out)
    ensures a.id in Quiet(c, s, a).openers && Script(a.id, Quiet(c, s, a).openers[a.id], OutAfter(c, s, a, out))
  {
    assert Quiet(c, s, a).openers[a.id].sent == s.openers[a.id].sent;
  }

  lemma ReadKeepsScript(id: StreamId, o: Opener, o': Opener, out: seq<Message>, chunk: seq<byte>, eof: bool)
    requires o.phase.Reading? && Script(id, o, out)
    requires o' == o.(phase := o'.phase, read := o.read + chunk)
    requires o'.phase == if chunk != [] then Forwarding(o.phase.conn, chunk, eof) else if eof then Ending else o.phase
    ensures Script(id, o', out)
  {
    assert chunk == [] ==> o'.read == o.read;
  }

  lemma CloseKeepsScript(id: StreamId, o: Opener, out: seq<Message>)
    requires o.phase.Ending? && Script(id, o, out)
    ensures Script(id, o.(phase := Leaving), out + [Message(id, OP_CLOSE, [])])
  {
  }

  lemma LeaveKeepsScript(id: StreamId, o: Opener, p: Phase, out: seq<Message>)
    requires (o.phase.Leaving? && (p.Closing? || p == Done(true))) || (o.phase.Closing? && p == Done(true))
    requires Script(id, o, out)
    ensures Script(id, o.(phase := p), out)
  {
  }

  ghost predicate KeepsScript(c: Config, s: State, a: Action, out: seq<Message>)
    requires Enabled(s, a) && IsOpenerStep(a)
  {
    a.id in Quiet(c, s, a).openers && Script(a.id, Quiet(c, s, a).openers[a.id], OutAfter(c, s, a, out))
  }

  lemma TcpReadKeepsScript(c: Config, s: State, id: StreamId, chunk: seq<byte>, eof: bool, out: seq<Message>)
    requires Enabled(s, TcpRead(id, chunk, eof)) && Script(id, s.openers[id], out)
    ensures KeepsScript(c, s, TcpRead(id, chunk, eof), out)
  {
    ReadKeepsScript(id, s.openers[id], Quiet(c, s, TcpRead(id, chunk, eof)).openers[id], out, chunk, eof);
  }

  lemma SendCloseKeepsScript(c: Config, s: State, id: StreamId, out: seq<Message>)
    requires Enabled(s, SendClose(id)) && Script(id, s.openers[id], out)
    ensures KeepsScript(c, s, SendClose(id), out)
  {
    CloseKeepsScript(id, s.openers[id], out);
  }

  lemma UnregisterKeepsScript(c: Config, s: State, id: StreamId, out: seq<Message>)
    requires Enabled(s, Unregister(id)) && Script(id, s.openers[id], out)
    ensures KeepsScript(c, s, Unregister(id), out)
  {
    LeaveKeepsScript(id, s.openers[id], Quiet(c, s, Unregister(id)).openers[id].phase, out);
  }

  lemma CloseConnKeepsScript(c: Config, s: State, id: StreamId, out: seq<Message>)
    requires Enabled(s, CloseConn(id)) && Script(id, s.openers[id], out)
    ensures KeepsScript(c, s, CloseConn(id), out)
  {
    LeaveKeepsScript(id, s.openers[id], Done(true), out);
  }

  /** Each step of an opener takes it from one point of its script to the next. */
  lemma OpenerKeepsScript(c: Config, s: State, a: Action, out: seq<Message>)
    requires Enabled(s, a) && IsOpenerStep(a) && a.id in s.openers && Script(a.id, s.openers[a.id], out)
    ensures KeepsScript(c, s, a, out)
  {
    match a {
      case Forward(id) => ForwardKeepsScript(id, s.openers[id], Quiet(c, s, a).openers[id], out);
      case TcpRead(id, chunk, eof) => TcpReadKeepsScript(c, s, id, chunk, eof, out);
      case SendClose(id) => SendCloseKeepsScript(c, s, id, out);
      case Unregister(id) => UnregisterKeepsScript(c, s, id, out);
      case CloseConn(id) => CloseConnKeepsScript(c, s, id, out);
      case _ => AnsweringKeepsScript(c, s, a, out);
    }
  }

  /** How a step's result relates to the step without its sending. */
  ghost predicate After(s: State, q: State, s': State, o: Option<Offer>) {
    && s'.openers == q.openers && s'.openIds == q.openIds
    && s'.offers == match o case None => s.offers case Some(f) => s.offers + [f]
  }

  lemma NextIsAfter(c: Config, s: State, a: Action)
    requires Enabled(s, a)
    ensures After(s, Quiet(c, s, a), Next(c, s, a), NewOffer(c, s, a))
  {
    QuietKeepsOffers(c, s, a);
    if Sends(c, s, a).Some? {
      var m := Sends(c, s, a).value;
      QuietKeepsQueueLength(c, s, a);
      SendIsAfter(s, Quiet(c, s, a), m.author, m.msg);
    }
  }

  lemma SendIsAfter(s: State, q: State, author: Author, m: Message)
    requires q.offers == s.offers && q.queue == s.queue
    ensures After(s, q, SendFrame(q, author, m), Some(Offer(m, author, |s.queue| < WRITE_CHANNEL_SIZE)))
  {
  }

  function OutWith(offers: seq<Offer>, o: Option<Offer>, id: StreamId): seq<Message> {
    var out := ByTheOpener(offers, id);
    if o.Some? && o.value.author == ByOpener(id) then out + [o.value.msg] else out
  }

  lemma FollowsAfter(s: State, q: State, s': State, o: Option<Offer>, id: StreamId)
    requires After(s, q, s', o)
    requires if id in q.openers then id in q.openIds && Script(id, q.openers[id], OutWith(s.offers, o, id))
             else OutWith(s.offers, o, id) == []
    ensures FollowsScript(s', id)
  {
    if o.Some? {
      Appended(s.offers, o.value, id);
    }
  }

  /** Whether the opener in `q` stands where the offers in `s` have it. */
  ghost predicate OnScript(s: State, q: State, id: StreamId) {
    var out := ByTheOpener(s.offers, id);
    if id in q.openers then id in q.openIds && Script(id, q.openers[id], out) else out == []
  }

  lemma FrameKeepsScript(c: Config, s: State, m: Message)
    requires FollowsScript(s, m.id) && (m.typ == OP_OPEN ==> m.id !in s.openIds)
    ensures OnScript(s, OnFrame(c, s, m), m.id)
  {
  }

  lemma ReaderKeepsScript(c: Config, s: State, a: Action)
    requires Enabled(s, a) && !IsOpenerStep(a) && FollowsScript(s, Subject(s, a))
    ensures OnScript(s, Quiet(c, s, a), Subject(s, a))
    ensures Sends(c, s, a).Some? ==> Sends(c, s, a).value.author == ByReader
  {
    ReaderSends(c, s, a, 0);
    if !a.Receive? {
      ReaderLeavesOpeners(c, s, a);
    } else if Decode(a.bytes).Some? {
      FrameKeepsScript(c, s.(inbox := s.inbox + [a.bytes]), Decode(a.bytes).value);
    }
  }

  lemma ScriptOfSubject(c: Config, s: State, a: Action)
    requires Enabled(s, a) && FollowsScript(s, Subject(s, a))
    ensures FollowsScript(Next(c, s, a), Subject(s, a))
  {
    var id := Subject(s, a);
    NextIsAfter(c, s, a);
    if IsOpenerStep(a) {
      assert id == a.id && id in s.openers;
      OpenerKeepsScript(c, s, a, ByTheOpener(s.offers, id));
      OpenerLeavesOthers(c, s, a, if id == 0 then 1 else 0);
    } else {
      ReaderKeepsScript(c, s, a);
    }
    FollowsAfter(s, Quiet(c, s, a), Next(c, s, a), NewOffer(c, s, a), id);
  }

  lemma OfferIsWellAuthored(c: Config, s: State, a: Action)
    requires Enabled(s, a)
    ensures NewOffer(c, s, a).Some? ==> WellAuthored(NewOffer(c, s, a).value)
  {
  }

  lemma ScriptStep(c: Config, s: State, a: Action)
    requires Enabled(s, a) && Scripts(s)
    ensures Scripts(Next(c, s, a))
  {
    var s', offer := Next(c, s, a), NewOffer(c, s, a);
    OffersAfter(c, s, a);
    OfferIsWellAuthored(c, s, a);
    forall id ensures FollowsScript(s', id) {
      assert FollowsScript(s, id);
      if id == Subject(s, a) {
        ScriptOfSubject(c, s, a);
      } else {
        OthersUnchanged(c, s, a, id);
        if offer.Some? {
          Appended(s.offers, offer.value, id);
        }
      }
    }
  }

  // ------------------------------------------------- where a connection lives

  predicate Holds(s: State, id: StreamId, conn: ConnId) {
    id in s.openers && s.openers[id].phase == Dialled(conn)
  }

  predicate IsRegistered(s: State, id: StreamId, conn: ConnId) {
    id in s.streams && s.streams[id] == conn
  }

  predicate ClosingByReader(s: State, conn: ConnId) {
    s.reader.ReaderClosing? && s.reader.conn == conn
  }

  predicate ClosingByOpener(s: State, id: StreamId, conn: ConnId) {
    id in s.openers && s.openers[id].phase == Closing(conn)
  }

  /** In how many places a connection is: held by its opener, registered under its
      opener's id, taken out of the table to be closed, or closed (counted as often as
      it was closed). */
  function Places(s: State, conn: ConnId): nat
    requires conn < |s.conns|
  {
    var id := s.conns[conn];
    One(Holds(s, id, conn)) + One(IsRegistered(s, id, conn)) + One(ClosingByReader(s, conn))
    + One(ClosingByOpener(s, id, conn)) + multiset(s.closed)[conn]
  }

  predicate OwnConn(s: State, id: StreamId, conn: ConnId) {
    conn < |s.conns| && s.conns[conn] == id
  }

  predicate PastRegistration(p: Phase) {
    !p.Dialing? && !p.Failed? && !p.Dialled? && p != Done(false)
  }

  /** Whatever is held for a stream belongs to it. */
  predicate OwnPlaces(s: State, id: StreamId) {
    && (id in s.streams ==> OwnConn(s, id, s.streams[id]) && id in s.openers && PastRegistration(s.openers[id].phase))
    && (id in s.openers ==> id in s.openIds
                            && (s.openers[id].phase.Dialled? || s.openers[id].phase.Closing? ==>
                                  OwnConn(s, id, s.openers[id].phase.conn)))
  }

  /** Each connection is in exactly one place, and no place holds anything else. */
  ghost predicate Conserved(s: State) {
    && (forall conn :: 0 <= conn < |s.conns| ==> Places(s, conn) == 1)
    && (forall id :: OwnPlaces(s, id))
    && (s.reader.ReaderClosing? ==> OwnConn(s, s.reader.id, s.reader.conn))
    && (forall conn :: conn in s.closed ==> conn < |s.conns|)
  }

  predicate Neutral(p: Phase) {
    !p.Dialled? && !p.Closing?
  }

  ghost predicate OnlyOpener(s: State, s': State, id: StreamId) {
    && s.openIds <= s'.openIds
    && (forall j :: j != id ==> (j in s.openers <==> j in s'.openers))
    && (forall j :: j != id && j in s.openers ==> s'.openers[j] == s.openers[j])
    && (id in s'.openers ==> id in s'.openIds)
  }

  /** A step that neither takes, returns, closes nor registers a connection. */
  lemma NeutralStep(s: State, s': State, id: StreamId)
    requires Conserved(s) && OnlyOpener(s, s', id)
    requires s'.streams == s.streams && s'.conns == s.conns && s'.closed == s.closed
    requires s'.reader == s.reader || (!s.reader.ReaderClosing? && !s'.reader.ReaderClosing?)
    requires (id in s.openers && id in s'.openers && s.openers[id].phase == s'.openers[id].phase)
             || ((id in s.openers ==> Neutral(s.openers[id].phase)) && (id in s'.openers ==> Neutral(s'.openers[id].phase)))
    requires id in s.streams ==> id in s'.openers && PastRegistration(s'.openers[id].phase)
    ensures Conserved(s')
  {
    forall conn | 0 <= conn < |s'.conns| ensures Places(s', conn) == 1 {
      assert Places(s, conn) == 1;
    }
    forall j ensures OwnPlaces(s', j) {
      assert OwnPlaces(s, j);
    }
  }

  lemma ConservedOnOpen(c: Config, s: State, m: Message)
    requires Conserved(s) && m.typ == OP_OPEN && m.id !in s.openIds
    ensures Conserved(OnFrame(c, s, m))
  {
    assert OwnPlaces(s, m.id);
    NeutralStep(s, OnFrame(c, s, m), m.id);
  }

  lemma ConservedOnFrame(c: Config, s: State, m: Message)
    requires Conserved(s) && s.reader.Waiting? && (m.typ == OP_OPEN ==> m.id !in s.openIds)
    ensures Conserved(OnFrame(c, s, m))
  {
    if m.typ == OP_OPEN {
      ConservedOnOpen(c, s, m);
    } else {
      ReaderStep(s, OnFrame(c, s, m));
    }
  }

  lemma ConservedDial(s: State, s': State, id: StreamId)
    requires Conserved(s) && At(s, id, (p: Phase) => p.Dialing?)
    requires s' == Moved(s, id, Dialled(|s.conns|)).(conns := s.conns + [id])
    ensures Conserved(s')
  {
    forall conn | 0 <= conn < |s'.conns| ensures Places(s', conn) == 1 {
      assert OwnPlaces(s, s'.conns[conn]);
      assert conn < |s.conns| ==> Places(s, conn) == 1;
      assert conn == |s.conns| ==> conn !in s.closed && conn !in multiset(s.closed);
    }
    forall j ensures OwnPlaces(s', j) {
      assert OwnPlaces(s, j);
    }
  }

  lemma ConservedRegister(s: State, s': State, id: StreamId)
    requires Conserved(s) && At(s, id, (p: Phase) => p.Dialled?)
    requires var conn := s.openers[id].phase.conn;
             s' == Moved(s, id, Registered(conn)).(streams := s.streams[id := conn], since := s'.since)
    ensures Conserved(s')
  {
    assert OwnPlaces(s, id);
    forall conn | 0 <= conn < |s'.conns| ensures Places(s', conn) == 1 {
      assert Places(s, conn) == 1;
    }
    forall j ensures OwnPlaces(s', j) {
      assert OwnPlaces(s, j);
    }
  }

  lemma ConservedReaderTakes(s: State, s': State)
    requires Conserved(s) && s.reader.Unregistering? && s.reader.id in s.streams
    requires s' == s.(streams := s.streams - {s.reader.id},
                      reader := ReaderClosing(s.reader.id, s.streams[s.reader.id], s.reader.reply))
    ensures Conserved(s')
  {
    assert OwnPlaces(s, s.reader.id);
    forall conn | 0 <= conn < |s'.conns| ensures Places(s', conn) == 1 {
      assert Places(s, conn) == 1;
    }
    forall j ensures OwnPlaces(s', j) {
      assert OwnPlaces(s, j);
    }
  }

  lemma ConservedReaderCloses(s: State, s': State)
    requires Conserved(s) && s.reader.ReaderClosing?
    requires s' == s.(closed := s.closed + [s.reader.conn], reader := s'.reader) && !s'.reader.ReaderClosing?
    ensures Conserved(s')
  {
    forall conn | 0 <= conn < |s'.conns| ensures Places(s', conn) == 1 {
      assert Places(s, conn) == 1;
    }
    forall j ensures OwnPlaces(s', j) {
      assert OwnPlaces(s, j);
    }
  }

  lemma ConservedOpenerTakes(s: State, s': State, id: StreamId)
    requires Conserved(s) && At(s, id, (p: Phase) => p.Leaving?) && id in s.streams
    requires s' == Moved(s, id, Closing(s.streams[id])).(streams := s.streams - {id})
    ensures Conserved(s')
  {
    assert OwnPlaces(s, id);
    forall conn | 0 <= conn < |s'.conns| ensures Places(s', conn) == 1 {
      assert Places(s, conn) == 1;
    }
    forall j ensures OwnPlaces(s', j) {
      assert OwnPlaces(s, j);
    }
  }

  lemma ConservedOpenerCloses(s: State, s': State, id: StreamId)
    requires Conserved(s) && At(s, id, (p: Phase) => p.Closing?)
    requires s' == Moved(s, id, Done(true)).(closed := s.closed + [s.openers[id].phase.conn])
    ensures Conserved(s')
  {
    assert OwnPlaces(s, id);
    forall conn | 0 <= conn < |s'.conns| ensures Places(s', conn) == 1 {
      assert Places(s, conn) == 1;
    }
    forall j ensures OwnPlaces(s', j) {
      assert OwnPlaces(s, j);
    }
  }

  lemma ReaderStep(s: State, s': State)
    requires Conserved(s) && s'.openers == s.openers && s'.openIds == s.openIds
    requires s'.streams == s.streams && s'.conns == s.conns && s'.closed == s.closed
    requires s'.reader == s.reader || (!s.reader.ReaderClosing? && !s'.reader.ReaderClosing?)
    ensures Conserved(s')
  {
    assert OwnPlaces(s, 0);
    NeutralStep(s, s', 0);
  }

  lemma ConservedQuiet(c: Config, s: State, a: Action)
    requires Enabled(s, a) && Conserved(s)
    ensures Conserved(Quiet(c, s, a))
  {
    var s' := Quiet(c, s, a);
    match a
    case Receive(bytes) =>
      var r := s.(inbox := s.inbox + [bytes]);
      ReaderStep(s, r);
      if Decode(bytes).Some? {
        ConservedOnFrame(c, r, Decode(bytes).value);
      }
    case DialSucceeds(id) => ConservedDial(s, s', id);
    case Register(id) => ConservedRegister(s, s', id);
    case CloseConn(id) => ConservedOpenerCloses(s, s', id);
    case ReaderClose => ConservedReaderCloses(s, s');
    case ReaderUnregister =>
      if s.reader.id in s.streams {
        ConservedReaderTakes(s, s');
      } else {
        ReaderStep(s, s');
      }
    case Unregister(id) =>
      if id in s.streams {
        ConservedOpenerTakes(s, s', id);
      } else {
        QuietPhase(s, s', id);
      }
    case TcpWrite(_, _) => ReaderStep(s, s');
    case ReaderReply => ReaderStep(s, s');
    case WriterTake => ReaderStep(s, s');
    case WriterWrite(_) => ReaderStep(s, s');
    case DialFails(id, _) => QuietPhase(s, s', id);
    case SendError(id) => QuietPhase(s, s', id);
    case Announce(id) => QuietPhase(s, s', id);
    case TcpRead(id, _, _) => QuietPhase(s, s', id);
    case Forward(id) => QuietPhase(s, s', id);
    case SendClose(id) => QuietPhase(s, s', id);
  }

  lemma ConservedStep(c: Config, s: State, a: Action)
    requires Enabled(s, a) && Conserved(s)
    ensures Conserved(Next(c, s, a))
  {
    ConservedQuiet(c, s, a);
    if Sends(c, s, a).Some? {
      SendingConserves(Quiet(c, s, a), Sends(c, s, a).value.author, Sends(c, s, a).value.msg);
    }
  }

  lemma SendingConserves(s: State, author: Author, m: Message)
    requires Conserved(s)
    ensures Conserved(SendFrame(s, author, m))
  {
    ReaderStep(s, SendFrame(s, author, m));
  }

  lemma QuietPhase(s: State, s': State, id: StreamId)
    requires Conserved(s) && id in s.openers && Neutral(s.openers[id].phase)
    requires id in s'.openers && Neutral(s'.openers[id].phase) && s'.openers == s.openers[id := s'.openers[id]]
    requires PastRegistration(s.openers[id].phase) ==> PastRegistration(s'.openers[id].phase)
    requires s'.streams == s.streams && s'.conns == s.conns && s'.closed == s.closed && s'.reader == s.reader && s'.openIds == s.openIds
    ensures Conserved(s')
  {
    assert OwnPlaces(s, id);
    NeutralStep(s, s', id);
  }

  // --------------------------------------------- answers and dialled targets

  predicate Unanswered(s: State, id: StreamId) {
    id in s.openers && BeforeAnswer(s.openers[id].phase)
  }

  /** Every OPEN has had exactly one answer offered, except those whose opener is still
      on its way to it. */
  ghost predicate Answered(s: State) {
    forall id :: Answers(s.offers, id) == One(IsAnswered(s, id))
  }

  predicate IsAnswered(s: State, id: StreamId) {
    id in s.openIds && !Unanswered(s, id)
  }

  ghost predicate Answering(c: Config, s: State, a: Action, id: StreamId)
    requires Enabled(s, a)
  {
    Sends(c, s, a).Some? && IsAnswer(Sends(c, s, a).value.msg, id)
  }

  lemma BalanceOfOpener(c: Config, s: State, a: Action)
    requires Enabled(s, a) && IsOpenerStep(a) && a.id in s.openIds
    ensures One(IsAnswered(Quiet(c, s, a), a.id)) == One(IsAnswered(s, a.id)) + One(Answering(c, s, a, a.id))
  {
  }

  lemma BalanceOfReader(c: Config, s: State, a: Action)
    requires Enabled(s, a) && !IsOpenerStep(a) && (forall id :: id in s.openers ==> id in s.openIds)
    ensures var id := Subject(s, a);
            One(IsAnswered(Quiet(c, s, a), id)) == One(IsAnswered(s, id)) + One(Answering(c, s, a, id))
  {
  }

  /** A step answers a stream exactly when the stream stops being unanswered. */
  lemma AnswerBalance(c: Config, s: State, a: Action)
    requires Enabled(s, a) && (forall id :: id in s.openers ==> id in s.openIds)
    ensures var id := Subject(s, a);
            One(IsAnswered(Next(c, s, a), id)) == One(IsAnswered(s, id)) + One(Answering(c, s, a, id))
  {
    if IsOpenerStep(a) {
      assert a.id == Subject(s, a) && a.id in s.openers;
      BalanceOfOpener(c, s, a);
    } else {
      BalanceOfReader(c, s, a);
    }
  }

  lemma AnsweredStep(c: Config, s: State, a: Action)
    requires Enabled(s, a) && Answered(s) && Scripts(s)
    ensures Answered(Next(c, s, a))
  {
    var s', offer := Next(c, s, a), NewOffer(c, s, a);
    OffersAfter(c, s, a);
    assert forall id :: id in s.openers ==> FollowsScript(s, id);
    forall id ensures Answers(s'.offers, id) == One(IsAnswered(s', id)) {
      if offer.Some? {
        Appended(s.offers, offer.value, id);
      }
      if id == Subject(s, a) {
        AnswerBalance(c, s, a);
      } else {
        OthersUnchanged(c, s, a, id);
      }
    }
  }

  /** The frame that justifies a dial: an OPEN for this target, on the allowlist. */
  ghost predicate Justifies(c: Config, bytes: seq<byte>, d: Dial) {
    var m := Decode(bytes);
    m.Some? && m.value.id == d.id && m.value.typ == OP_OPEN && ParseOpen(AsText(m.value.payload)) == Some(d.target)
    && IsAllowedTarget(c, d.target)
  }

  ghost predicate HasOpen(c: Config, s: State, d: Dial) {
    d.id in s.openIds && exists b :: b in s.inbox && Justifies(c, b, d)
  }

  ghost predicate Justified(c: Config, s: State) {
    && (forall d :: d in s.dials ==> HasOpen(c, s, d))
    && (forall i, j :: 0 <= i < j < |s.dials| ==> s.dials[i].id != s.dials[j].id)
  }

  lemma JustifiedFrame(c: Config, s: State, s': State)
    requires Justified(c, s) && s'.dials == s.dials && s.openIds <= s'.openIds
    requires s'.inbox == s.inbox || (s'.inbox != [] && s'.inbox[..|s'.inbox| - 1] == s.inbox)
    ensures Justified(c, s')
  {
    forall d | d in s'.dials ensures HasOpen(c, s', d) {
      assert HasOpen(c, s, d);
      var b :| b in s.inbox && Justifies(c, b, d);
      assert b in s'.inbox;
    }
  }

  lemma JustifiedDial(c: Config, s: State, s': State, bytes: seq<byte>, d: Dial)
    requires Justified(c, s) && bytes in s.inbox && Justifies(c, bytes, d) && d.id !in s.openIds
    requires s'.dials == s.dials + [d] && s'.openIds == s.openIds + {d.id} && s'.inbox == s.inbox
    ensures Justified(c, s')
  {
    forall e | e in s'.dials ensures HasOpen(c, s', e) {
      if e in s.dials {
        assert HasOpen(c, s, e);
      }
    }
    forall i | 0 <= i < |s.dials| ensures s.dials[i].id != d.id {
      assert HasOpen(c, s, s.dials[i]);
    }
  }

  lemma JustifiedOnFrame(c: Config, s: State, bytes: seq<byte>)
    requires Justified(c, s) && bytes in s.inbox && Decode(bytes).Some?
    requires Decode(bytes).value.typ == OP_OPEN ==> Decode(bytes).value.id !in s.openIds
    ensures Justified(c, OnFrame(c, s, Decode(bytes).value))
  {
    var m := Decode(bytes).value;
    var s' := OnFrame(c, s, m);
    var t := ParseOpen(AsText(m.payload));
    if m.typ == OP_OPEN && t.Some? && IsAllowedTarget(c, t.value) {
      assert Justifies(c, bytes, Dial(m.id, t.value));
      JustifiedDial(c, s, s', bytes, Dial(m.id, t.value));
    } else {
      JustifiedFrame(c, s, s');
    }
  }

  lemma JustifiedStep(c: Config, s: State, a: Action)
    requires Enabled(s, a) && Justified(c, s)
    ensures Justified(c, Next(c, s, a))
  {
    var q := Quiet(c, s, a);
    if a.Receive? {
      var r := s.(inbox := s.inbox + [a.bytes]);
      assert r.inbox[..|r.inbox| - 1] == s.inbox;
      JustifiedFrame(c, s, r);
      if Decode(a.bytes).Some? {
        JustifiedOnFrame(c, r, a.bytes);
      }
    } else {
      QuietDialsNothing(c, s, a);
      JustifiedFrame(c, s, q);
    }
    if Sends(c, s, a).Some? {
      JustifiedFrame(c, q, SendFrame(q, Sends(c, s, a).value.author, Sends(c, s, a).value.msg));
    }
  }

  lemma QuietDialsNothing(c: Config, s: State, a: Action)
    requires Enabled(s, a) && !a.Receive?
    ensures DialsNothing(s, Quiet(c, s, a))
  {
    if IsOpenerStep(a) {
      OpenerDialsNothing(c, s, a);
    }
  }

  predicate DialsNothing(s: State, s': State) {
    s'.dials == s.dials && s'.openIds == s.openIds && s'.inbox == s.inbox
  }

  lemma OpenerDialsNothing(c: Config, s: State, a: Action)
    requires Enabled(s, a) && IsOpenerStep(a)
    ensures DialsNothing(s, Quiet(c, s, a))
  {
  }

  // ----------------------------------------------------------- over whole runs

  ghost predicate Invariant(c: Config, s: State) {
    Pipeline(s) && Scripts(s) && Conserved(s) && Answered(s) && Justified(c, s)
  }

  lemma InvariantAtStart(c: Config)
    ensures Invariant(c, Start)
  {
  }

  lemma {:induction false} InvariantOverRun(c: Config, s: State, acts: seq<Action>, s': State)
    requires Invariant(c, s) && Run(c, s, acts, s')
    ensures Invariant(c, s')
    decreases |acts|
  {
    if acts != [] {
      var a := acts[0];
      PipelineStep(c, s, a);
      ScriptStep(c, s, a);
      ConservedStep(c, s, a);
      AnsweredStep(c, s, a);
      JustifiedStep(c, s, a);
      InvariantOverRun(c, Next(c, s, a), acts[1..], s');
    }
  }

  lemma {:induction false} StreamOfOffers(offers: seq<Offer>, id: StreamId)
    requires forall o :: o in offers ==> WellAuthored(o)
    ensures Stream(Offered(offers), id) == Stream(ByTheOpener(offers, id), id)
  {
    if offers != [] {
      var rest, o := offers[..|offers| - 1], offers[|offers| - 1];
      assert WellAuthored(o);
      StreamOfOffers(rest, id);
      StreamAppend(Offered(rest), o.msg, id);
      StreamAppend(ByTheOpener(rest, id), o.msg, id);
    }
  }

  lemma StreamAppend(ms: seq<Message>, m: Message, id: StreamId)
    ensures Stream(ms + [m], id) == if IsStreamFrame(m, id) then Stream(ms, id) + [m] else Stream(ms, id)
    ensures Payload(ms + [m]) == if m.typ == OP_DATA then Payload(ms) + m.payload else Payload(ms)
  {
    assert (ms + [m])[..|ms|] == ms;
  }

  lemma {:induction false} StreamConcat(a: seq<Message>, b: seq<Message>, id: StreamId)
    ensures Stream(a + b, id) == Stream(a, id) + Stream(b, id)
  {
    if b == [] {
      assert a + b == a;
    } else {
      var rest, m := b[..|b| - 1], b[|b| - 1];
      StreamConcat(a, rest, id);
      LastApart(a, b);
      StreamAppend(a + rest, m, id);
      Regrouped(Stream(a, id), Stream(rest, id), [m]);
    }
  }

  lemma {:induction false} PayloadConcat(a: seq<Message>, b: seq<Message>)
    ensures Payload(a + b) == Payload(a) + Payload(b)
  {
    if b == [] {
      assert a + b == a;
    } else {
      var rest, m := b[..|b| - 1], b[|b| - 1];
      PayloadConcat(a, rest);
      LastApart(a, b);
      StreamAppend(a + rest, m, 0);
      Regrouped(Payload(a), Payload(rest), m.payload);
    }
  }

  lemma {:induction false} StreamOfScript(id: StreamId, chunks: seq<seq<byte>>)
    ensures Stream(Greeting(id) + DataFrames(id, chunks), id) == Greeting(id) + DataFrames(id, chunks)
    ensures Payload(Greeting(id) + DataFrames(id, chunks)) == Flat(chunks)
  {
    if chunks == [] {
      StreamAppend([], Message(id, OP_OPEN_OK, []), id);
      assert Greeting(id) + DataFrames(id, chunks) == [] + [Message(id, OP_OPEN_OK, [])] == Greeting(id);
    } else {
      var rest := chunks[..|chunks| - 1];
      var m := Message(id, OP_DATA, chunks[|chunks| - 1]);
      StreamOfScript(id, rest);
      assert Greeting(id) + DataFrames(id, chunks) == (Greeting(id) + DataFrames(id, rest)) + [m];
      StreamAppend(Greeting(id) + DataFrames(id, rest), m, id);
    }
  }

  lemma {:induction false} SubsequenceGrows<T>(a: seq<T>, b: seq<T>, x: T)
    requires Subsequence(a, b)
    ensures Subsequence(a, b + [x]) && Subsequence(a + [x], b + [x])
  {
    assert (b + [x])[..|b|] == b && (a + [x])[..|a|] == a;
  }

  lemma {:induction false} SubsequenceDropsLast<T>(a: seq<T>, x: T, b: seq<T>)
    requires Subsequence(a + [x], b)
    ensures Subsequence(a, b)
  {
    assert (a + [x])[..|a|] == a;
    var rest := b[..|b| - 1];
    if Subsequence(a + [x], rest) {
      SubsequenceDropsLast(a, x, rest);
    }
    assert b == rest + [b[|b| - 1]];
    SubsequenceGrows(a, rest, b[|b| - 1]);
  }

  lemma {:induction false} SubsequencePrefix<T>(a: seq<T>, b: seq<T>, c: seq<T>)
    requires Subsequence(a + b, c)
    ensures Subsequence(a, c)
  {
    if b == [] {
      assert a + b == a;
    } else {
      assert a + b == (a + b[..|b| - 1]) + [b[|b| - 1]];
      SubsequenceDropsLast(a + b[..|b| - 1], b[|b| - 1], c);
      SubsequencePrefix(a, b[..|b| - 1], c);
    }
  }

  lemma {:induction false} AcceptedIsSubsequence(offers: seq<Offer>, id: StreamId)
    ensures Subsequence(Stream(Accepted(offers), id), Stream(Offered(offers), id))
  {
    if offers != [] {
      var rest, o := offers[..|offers| - 1], offers[|offers| - 1];
      AcceptedIsSubsequence(rest, id);
      StreamAppend(Accepted(rest), o.msg, id);
      StreamAppend(Offered(rest), o.msg, id);
      SubsequenceGrows(Stream(Accepted(rest), id), Stream(Offered(rest), id), o.msg);
    }
  }

  ghost predicate NothingDropped(offers: seq<Offer>) {
    forall o :: o in offers ==> o.accepted
  }

  lemma {:induction false} AllAccepted(offers: seq<Offer>)
    requires NothingDropped(offers)
    ensures Accepted(offers) == Offered(offers)
  {
    if offers != [] {
      AllAccepted(offers[..|offers| - 1]);
    }
  }

  /** What a stream's opener has put out so far. */
  function Produced(s: State, id: StreamId): seq<Message> {
    if id in s.openers && !Unanswered(s, id) && s.openers[id].phase != Done(false) then
      Greeting(id) + DataFrames(id, s.openers[id].sent)
    else []
  }

  function BytesRead(s: State, id: StreamId): seq<byte> {
    if id in s.openers then s.openers[id].read else []
  }

  lemma StreamOfOutput(id: StreamId, o: Opener, out: seq<Message>)
    requires Script(id, o, out)
    ensures Stream(out, id) == if BeforeAnswer(o.phase) || o.phase == Done(false) then [] else Greeting(id) + DataFrames(id, o.sent)
  {
    StreamOfScript(id, o.sent);
    if o.phase == Done(false) {
      assert out == [] + [out[0]];
      StreamAppend([], out[0], id);
    } else if AfterClose(o.phase) {
      StreamAppend(Greeting(id) + DataFrames(id, o.sent), Message(id, OP_CLOSE, []), id);
    }
  }

  lemma ProducedIsOffered(s: State, id: StreamId)
    requires Scripts(s)
    ensures Stream(Offered(s.offers), id) == Produced(s, id)
    ensures Payload(Produced(s, id)) <= BytesRead(s, id)
  {
    StreamOfOffers(s.offers, id);
    assert FollowsScript(s, id);
    if id in s.openers {
      StreamOfOutput(id, s.openers[id], ByTheOpener(s.offers, id));
      StreamOfScript(id, s.openers[id].sent);
    }
  }

  lemma PrefixKeepsSubsequence(w: seq<Message>, rest: seq<Message>, out: seq<Message>, id: StreamId)
    requires Subsequence(Stream(w + rest, id), out)
    ensures Subsequence(Stream(w, id), out)
  {
    StreamConcat(w, rest, id);
    SubsequencePrefix(Stream(w, id), Stream(rest, id), out);
  }

  lemma WireOfAccepted(offers: seq<Offer>, wire: seq<Message>, rest: seq<Message>, id: StreamId)
    requires Accepted(offers) == wire + rest
    ensures Subsequence(Stream(wire, id), Stream(Offered(offers), id))
    ensures NothingDropped(offers) ==> Stream(wire, id) <= Stream(Offered(offers), id)
  {
    AcceptedIsSubsequence(offers, id);
    PrefixKeepsSubsequence(wire, rest, Stream(Offered(offers), id), id);
    if NothingDropped(offers) {
      AllAccepted(offers);
      StreamConcat(wire, rest, id);
    }
  }

  lemma WireIsOffered(s: State, id: StreamId)
    requires Pipeline(s)
    ensures Subsequence(Stream(s.wire, id), Stream(Offered(s.offers), id))
    ensures NothingDropped(s.offers) ==> Stream(s.wire, id) <= Stream(Offered(s.offers), id)
  {
    Regrouped(s.wire, InFlight(s), s.queue);
    WireOfAccepted(s.offers, s.wire, InFlight(s) + s.queue, id);
  }

  lemma PayloadOfPrefix(a: seq<Message>, b: seq<Message>)
    requires a <= b
    ensures Payload(a) <= Payload(b)
  {
    PayloadConcat(a, b[|a|..]);
    assert b == a + b[|a|..];
  }

  /** In every interleaving: a stream's OPEN_OK and DATA frames are offered in the order
      the opener made them, the OPEN_OK before any DATA; those on the wire are an
      in-order subsequence; and if the queue never dropped a frame, the DATA on the wire
      spells a prefix of what was read from the TCP connection. */
  lemma WireIsInOrder(c: Config, acts: seq<Action>, s: State, id: StreamId)
    requires Run(c, Start, acts, s)
    ensures Stream(Offered(s.offers), id) == Produced(s, id)
    ensures Subsequence(Stream(s.wire, id), Produced(s, id))
    ensures NothingDropped(s.offers) ==>
              Stream(s.wire, id) <= Produced(s, id) && Payload(Stream(s.wire, id)) <= BytesRead(s, id)
  {
    InvariantAtStart(c);
    InvariantOverRun(c, Start, acts, s);
    ProducedIsOffered(s, id);
    WireIsOffered(s, id);
    if NothingDropped(s.offers) {
      PayloadOfPrefix(Stream(s.wire, id), Produced(s, id));
    }
  }

  /** In every interleaving: a connection that a dial returned is held by its opener, or
      registered under its own stream, or on its way to being closed, or closed, and only
      one of these; so none is lost and none is closed twice. */
  lemma ConnectionsAreConserved(c: Config, acts: seq<Action>, s: State, conn: ConnId)
    requires Run(c, Start, acts, s) && conn < |s.conns|
    ensures Places(s, conn) == 1
    ensures multiset(s.closed)[conn] <= 1
    ensures conn !in s.closed ==>
              var id := s.conns[conn];
              Holds(s, id, conn) || IsRegistered(s, id, conn) || ClosingByReader(s, conn) || ClosingByOpener(s, id, conn)
  {
    InvariantAtStart(c);
    InvariantOverRun(c, Start, acts, s);
    assert conn in s.closed <==> conn in multiset(s.closed);
  }

  /** In every interleaving: an OPEN is answered, by OPEN_OK or OPEN_ERR, exactly once;
      before that its opener is still dialling or about to answer. */
  lemma OpensAreAnsweredOnce(c: Config, acts: seq<Action>, s: State, id: StreamId)
    requires Run(c, Start, acts, s)
    ensures Answers(s.offers, id) == if IsAnswered(s, id) then 1 else 0
  {
    InvariantAtStart(c);
    InvariantOverRun(c, Start, acts, s);
  }

  /** In every interleaving: each dial was asked for by an OPEN frame whose target an
      allowlist entry denotes, and each stream dials at most once. */
  lemma DialsAreAllowed(c: Config, entries: seq<string>, acts: seq<Action>, s: State, d: Dial)
    requires Run(c, Start, acts, s) && d in s.dials
    requires RulesOf(c.parse, entries, c.rules)
    ensures exists b :: b in s.inbox && Justifies(c, b, d)
    ensures exists e :: e in entries && Denotes(c.parse, e, d.target.host, d.target.port)
    ensures forall i, j :: 0 <= i < j < |s.dials| ==> s.dials[i].id != s.dials[j].id
  {
    InvariantAtStart(c);
    InvariantOverRun(c, Start, acts, s);
    AllowedExactly(c.parse, entries, c.rules, d.target.host, d.target.port);
  }
}
