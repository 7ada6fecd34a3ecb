/**
 What the tunnel's reader decides and answers by itself: exactly the allowed OPENs are
 dialled, the others are refused with the right text, and every failed write is answered by
 one CLOSE.
 */
module Replies {
  import opened Text
  import opened Frame
  import opened Multiplexer
  import opened Closing

  /** The frame is an OPEN that is not dialled, and `m` says why. */
  ghost predicate IsRefusal(c: Config, bytes: seq<byte>, m: Message) {
    var open := Decode(bytes);
    && open.Some? && open.value.typ == OP_OPEN && m.id == open.value.id && m.typ == OP_OPEN_ERR
    && match ParseOpen(AsText(open.value.payload))
       case None => AsText(m.payload) == "invalid OPEN payload"
       case Some(t) => !IsAllowedTarget(c, t) && AsText(m.payload) == "denied"
  }

  ghost predicate Refused(offers: seq<Offer>, m: Message) {
    exists k :: 0 <= k < |offers| && offers[k].author.ByReader? && offers[k].msg == m
  }

  ghost predicate Among(c: Config, inbox: seq<seq<byte>>, m: Message) {
    exists k :: 0 <= k < |inbox| && IsRefusal(c, inbox[k], m)
  }

  ghost predicate AskedFor(c: Config, inbox: seq<seq<byte>>, d: Dial) {
    exists k :: 0 <= k < |inbox| && Justifies(c, inbox[k], d)
  }

  /** Every received OPEN has been dealt with. */
  ghost predicate DealtWith(c: Config, s: State) {
    && (forall d :: d in s.dials <==> AskedFor(c, s.inbox, d))
    && (forall m: Message :: m.typ == OP_OPEN_ERR ==> (Refused(s.offers, m) <==> Among(c, s.inbox, m)))
  }

  lemma AskedForMore(c: Config, inbox: seq<seq<byte>>, bytes: seq<byte>, d: Dial, m: Message)
    ensures AskedFor(c, inbox + [bytes], d) <==> AskedFor(c, inbox, d) || Justifies(c, bytes, d)
    ensures Among(c, inbox + [bytes], m) <==> Among(c, inbox, m) || IsRefusal(c, bytes, m)
  {
    var more := inbox + [bytes];
    assert more[|inbox|] == bytes;
    if k :| 0 <= k < |inbox| && Justifies(c, inbox[k], d) {
      assert more[k] == inbox[k];
    }
    if k :| 0 <= k < |inbox| && IsRefusal(c, inbox[k], m) {
      assert more[k] == inbox[k];
    }
  }

  lemma RefusedMore(offers: seq<Offer>, o: Offer, m: Message)
    ensures Refused(offers + [o], m) <==> Refused(offers, m) || (o.author.ByReader? && o.msg == m)
  {
    var more := offers + [o];
    assert more[|offers|] == o;
    if k :| 0 <= k < |offers| && offers[k].author.ByReader? && offers[k].msg == m {
      assert more[k] == offers[k];
    }
  }

  /** What receiving a frame adds to the dials. */
  lemma FrameDials(c: Config, s: State, bytes: seq<byte>, m: Message, d: Dial)
    requires Decode(bytes) == Some(m)
    ensures d in OnFrame(c, s, m).dials <==> d in s.dials || Justifies(c, bytes, d)
    ensures OnFrame(c, s, m).inbox == s.inbox
  {
    if m.typ == OP_OPEN {
      var t := ParseOpen(AsText(m.payload));
      if t.Some? && IsAllowedTarget(c, t.value) {
        assert OnFrame(c, s, m).dials == s.dials + [Dial(m.id, t.value)];
      }
    }
  }

  lemma ReceiveDials(c: Config, s: State, bytes: seq<byte>, d: Dial)
    requires Enabled(s, Receive(bytes))
    ensures d in Quiet(c, s, Receive(bytes)).dials <==> d in s.dials || Justifies(c, bytes, d)
    ensures Quiet(c, s, Receive(bytes)).inbox == s.inbox + [bytes]
  {
    if Decode(bytes).Some? {
      FrameDials(c, s.(inbox := s.inbox + [bytes]), bytes, Decode(bytes).value, d);
    }
  }

  /** `[]byte(text)` for a text of such characters. */
  lemma BytesOf(p: seq<byte>, text: string)
    requires forall i :: 0 <= i < |text| ==> text[i] as int < 0x100
    ensures p == Bytes(text) <==> AsText(p) == text
  {
    if AsText(p) == text {
      forall i | 0 <= i < |text| ensures p[i] == Bytes(text)[i] {
        assert p[i] as char == text[i];
      }
    }
  }

  lemma ReceiveRefuses(c: Config, s: State, bytes: seq<byte>, m: Message)
    requires Enabled(s, Receive(bytes)) && m.typ == OP_OPEN_ERR
    ensures var o := NewOffer(c, s, Receive(bytes));
            o.Some? && o.value.author.ByReader? && o.value.msg == m <==> IsRefusal(c, bytes, m)
  {
    BytesOf(m.payload, "invalid OPEN payload");
    BytesOf(m.payload, "denied");
  }

  lemma OthersRefuseNothing(c: Config, s: State, a: Action)
    requires Enabled(s, a) && !a.Receive?
    ensures var o := NewOffer(c, s, a); o.Some? && o.value.author.ByReader? ==> o.value.msg.typ == OP_CLOSE
  {
  }

  predicate OnlySends(q: State, s': State) {
    s'.dials == q.dials && s'.inbox == q.inbox && s'.writes == q.writes && s'.conns == q.conns && s'.reader == q.reader
  }

  lemma SendFrameKeeps(q: State, author: Author, m: Message)
    ensures OnlySends(q, SendFrame(q, author, m))
  {
  }

  lemma SendingKeeps(c: Config, s: State, a: Action)
    requires Enabled(s, a)
    ensures OnlySends(Quiet(c, s, a), Next(c, s, a))
  {
    if Sends(c, s, a).Some? {
      SendFrameKeeps(Quiet(c, s, a), Sends(c, s, a).value.author, Sends(c, s, a).value.msg);
    }
  }

  lemma ReceiveDealsWith(c: Config, s: State, bytes: seq<byte>)
    requires Enabled(s, Receive(bytes)) && DealtWith(c, s)
    ensures DealtWith(c, Next(c, s, Receive(bytes)))
  {
    var a, s' := Receive(bytes), Next(c, s, Receive(bytes));
    OffersAfter(c, s, a);
    SendingKeeps(c, s, a);
    forall d ensures d in s'.dials <==> AskedFor(c, s'.inbox, d) {
      ReceiveDials(c, s, bytes, d);
      AskedForMore(c, s.inbox, bytes, d, Message(0, 0, []));
    }
    forall m: Message | m.typ == OP_OPEN_ERR ensures Refused(s'.offers, m) <==> Among(c, s'.inbox, m) {
      ReceiveDials(c, s, bytes, Dial(0, Target([], 0)));
      AskedForMore(c, s.inbox, bytes, Dial(0, Target([], 0)), m);
      ReceiveRefuses(c, s, bytes, m);
      var o := NewOffer(c, s, a);
      if o.Some? {
        RefusedMore(s.offers, o.value, m);
      }
    }
  }

  lemma OtherDealsWith(c: Config, s: State, a: Action)
    requires Enabled(s, a) && !a.Receive? && DealtWith(c, s)
    ensures DealtWith(c, Next(c, s, a))
  {
    var s' := Next(c, s, a);
    OffersAfter(c, s, a);
    SendingKeeps(c, s, a);
    QuietDialsNothing(c, s, a);
    OthersRefuseNothing(c, s, a);
    forall m: Message | m.typ == OP_OPEN_ERR ensures Refused(s'.offers, m) <==> Refused(s.offers, m) {
      var o := NewOffer(c, s, a);
      if o.Some? {
        RefusedMore(s.offers, o.value, m);
      }
    }
  }

  lemma {:induction false} DealtWithOverRun(c: Config, s: State, acts: seq<Action>, s': State)
    requires DealtWith(c, s) && Run(c, s, acts, s')
    ensures DealtWith(c, s')
    decreases |acts|
  {
    if acts != [] {
      if acts[0].Receive? {
        ReceiveDealsWith(c, s, acts[0].bytes);
      } else {
        OtherDealsWith(c, s, acts[0]);
      }
      DealtWithOverRun(c, Next(c, s, acts[0]), acts[1..], s');
    }
  }

  /** In every interleaving: a target has been dialled for a stream exactly if an OPEN for it
      was received that some rule allows; and the reader has refused a stream exactly if its
      OPEN does not parse or no rule allows its target, with the text for that. */
  lemma OpensAreDecidedExactly(c: Config, acts: seq<Action>, s: State)
    requires Run(c, Start, acts, s)
    ensures forall d :: d in s.dials <==> AskedFor(c, s.inbox, d)
    ensures forall m: Message :: m.typ == OP_OPEN_ERR ==> (Refused(s.offers, m) <==> Among(c, s.inbox, m))
  {
    assert DealtWith(c, Start);
    DealtWithOverRun(c, Start, acts, s);
  }

  // ------------------------------------------------------------ failed writes

  predicate FailedFor(o: TcpOut, conns: seq<StreamId>, id: StreamId) {
    !o.ok && o.conn < |conns| && conns[o.conn] == id
  }

  /** How many writes to a stream's connection failed. */
  function Failures(writes: seq<TcpOut>, conns: seq<StreamId>, id: StreamId): nat {
    if writes == [] then 0
    else Failures(writes[..|writes| - 1], conns, id) + One(FailedFor(writes[|writes| - 1], conns, id))
  }

  predicate IsReadersClose(o: Offer, id: StreamId) {
    o.author.ByReader? && o.msg == Message(id, OP_CLOSE, [])
  }

  /** How many CLOSE frames the reader has offered for a stream. */
  function ReaderCloses(offers: seq<Offer>, id: StreamId): nat {
    if offers == [] then 0
    else ReaderCloses(offers[..|offers| - 1], id) + One(IsReadersClose(offers[|offers| - 1], id))
  }

  /** The reader is on its way to answer a failed write. */
  predicate AnswerPending(s: State, id: StreamId) {
    match s.reader
    case Unregistering(i, reply) => i == id && reply
    case ReaderClosing(i, _, reply) => i == id && reply
    case Replying(i) => i == id
    case _ => false
  }

  ghost predicate Balanced(s: State, id: StreamId) {
    Failures(s.writes, s.conns, id) == ReaderCloses(s.offers, id) + One(AnswerPending(s, id))
  }

  lemma CountsAppend(writes: seq<TcpOut>, o: TcpOut, conns: seq<StreamId>, offers: seq<Offer>, f: Offer, id: StreamId)
    ensures Failures(writes + [o], conns, id) == Failures(writes, conns, id) + One(FailedFor(o, conns, id))
    ensures ReaderCloses(offers + [f], id) == ReaderCloses(offers, id) + One(IsReadersClose(f, id))
  {
    assert (writes + [o])[..|writes|] == writes && (offers + [f])[..|offers|] == offers;
  }

  lemma {:induction false} NewConnHasNoFailures(writes: seq<TcpOut>, conns: seq<StreamId>, more: StreamId, id: StreamId)
    requires forall o :: o in writes ==> o.conn < |conns|
    ensures Failures(writes, conns + [more], id) == Failures(writes, conns, id)
  {
    if writes != [] {
      assert writes[|writes| - 1] in writes;
      NewConnHasNoFailures(writes[..|writes| - 1], conns, more, id);
    }
  }

  /** Steps other than a write neither fail nor start an answer, and end one only by giving it. */
  ghost predicate NoFailure(c: Config, s: State, a: Action, q: State, id: StreamId)
    requires Enabled(s, a)
  {
    && q.writes == s.writes && (q.conns == s.conns || exists more :: q.conns == s.conns + [more])
    && var answers := Sends(c, s, a).Some? && Sends(c, s, a).value.author.ByReader?
                      && Sends(c, s, a).value.msg == Message(id, OP_CLOSE, []);
       One(AnswerPending(s, id)) == One(AnswerPending(q, id)) + One(answers)
  }

  lemma OpenerFailsNothing(c: Config, s: State, a: Action, id: StreamId)
    requires Enabled(s, a) && IsOpenerStep(a)
    ensures NoFailure(c, s, a, Quiet(c, s, a), id)
  {
    if a.DialSucceeds? {
      assert Quiet(c, s, a).conns == s.conns + [a.id];
    }
  }

  lemma FrameFailsNothing(c: Config, s: State, m: Message)
    requires s.reader.Waiting?
    ensures var s' := OnFrame(c, s, m);
            s'.writes == s.writes && s'.conns == s.conns && forall id :: !AnswerPending(s', id)
  {
  }

  lemma ReceiveFailsNothing(c: Config, s: State, bytes: seq<byte>, id: StreamId)
    requires Enabled(s, Receive(bytes))
    ensures NoFailure(c, s, Receive(bytes), Quiet(c, s, Receive(bytes)), id)
  {
    if Decode(bytes).Some? {
      FrameFailsNothing(c, s.(inbox := s.inbox + [bytes]), Decode(bytes).value);
    }
  }

  lemma ReaderFailsNothing(c: Config, s: State, a: Action, id: StreamId)
    requires Enabled(s, a) && !IsOpenerStep(a) && !a.Receive? && !a.TcpWrite?
    ensures NoFailure(c, s, a, Quiet(c, s, a), id)
  {
  }

  lemma StaysBalanced(c: Config, s: State, a: Action, id: StreamId)
    requires Enabled(s, a) && NoFailure(c, s, a, Quiet(c, s, a), id) && Balanced(s, id)
    requires forall o :: o in s.writes ==> o.conn < |s.conns|
    ensures Failures(Quiet(c, s, a).writes, Quiet(c, s, a).conns, id)
            == ReaderCloses(Next(c, s, a).offers, id) + One(AnswerPending(Quiet(c, s, a), id))
  {
    var q := Quiet(c, s, a);
    OffersAfter(c, s, a);
    var o := NewOffer(c, s, a);
    if o.Some? {
      CountsAppend([], TcpOut(0, [], true), [], s.offers, o.value, id);
    }
    if q.conns != s.conns {
      var more :| q.conns == s.conns + [more];
      NewConnHasNoFailures(s.writes, s.conns, more, id);
    }
  }

  lemma WriteIs(c: Config, s: State, n: nat, ok: bool)
    requires Enabled(s, TcpWrite(n, ok))
    ensures var o := TcpOut(s.reader.conn, s.reader.payload[..n], ok);
            Next(c, s, TcpWrite(n, ok))
            == s.(writes := s.writes + [o], reader := if ok then Waiting else Unregistering(s.reader.id, true))
  {
  }

  lemma WriteBalances(s: State, s': State, o: TcpOut, id: StreamId)
    requires s.reader.Writing? && Balanced(s, id) && OwnConn(s, s.reader.id, o.conn)
    requires s' == s.(writes := s.writes + [o], reader := if o.ok then Waiting else Unregistering(s.reader.id, true))
    ensures Balanced(s', id)
  {
    CountsAppend(s.writes, o, s.conns, [], Offer(Message(0, 0, []), ByReader, true), id);
  }

  lemma BalancedStep(c: Config, s: State, a: Action, id: StreamId)
    requires Enabled(s, a) && Balanced(s, id) && Tracked(s)
    ensures Balanced(Next(c, s, a), id)
  {
    if a.TcpWrite? {
      WriteIs(c, s, a.n, a.ok);
      WriteBalances(s, Next(c, s, a), TcpOut(s.reader.conn, s.reader.payload[..a.n], a.ok), id);
    } else {
      if IsOpenerStep(a) {
        OpenerFailsNothing(c, s, a, id);
      } else if a.Receive? {
        ReceiveFailsNothing(c, s, a.bytes, id);
      } else {
        ReaderFailsNothing(c, s, a, id);
      }
      StaysBalanced(c, s, a, id);
      SendingKeeps(c, s, a);
    }
  }

  lemma {:induction false} BalancedOverRun(c: Config, s: State, acts: seq<Action>, s': State, id: StreamId)
    requires Balanced(s, id) && Tracked(s) && Conserved(s) && Run(c, s, acts, s')
    ensures Balanced(s', id)
    decreases |acts|
  {
    if acts != [] {
      BalancedStep(c, s, acts[0], id);
      TrackedStep(c, s, acts[0]);
      ConservedStep(c, s, acts[0]);
      BalancedOverRun(c, Next(c, s, acts[0]), acts[1..], s', id);
    }
  }

  /** In every interleaving, whenever the reader waits for a frame: it has offered one CLOSE
      for every write to the stream's connection that failed, and no other; before the next
      frame at most one answer is still to come. */
  lemma FailedWritesAreAnswered(c: Config, acts: seq<Action>, s: State, id: StreamId)
    requires Run(c, Start, acts, s)
    ensures Failures(s.writes, s.conns, id) == ReaderCloses(s.offers, id) + One(AnswerPending(s, id))
    ensures s.reader.Waiting? ==> Failures(s.writes, s.conns, id) == ReaderCloses(s.offers, id)
  {
    InvariantAtStart(c);
    BalancedOverRun(c, Start, acts, s, id);
  }
}
