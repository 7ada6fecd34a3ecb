/** The reconnect loop of the tunnel: one or two connections, then a wait. */
module Reconnect {
  import opened Text
  import opened Bits

  /** One turn of the loop: the token the server hands out, if any, and whether a connection
      made with each secret ends in an error. */
  datatype Turn = Turn(token: Option<string>, fails: string -> bool)

  datatype Event = Connected(secret: string) | Waited(seconds: nat)

  const BACKOFF_MIN: nat := 1
  const BACKOFF_MAX: nat := 30

  /** The secret of the first connection; without a fetcher no token is asked for. */
  function Secret(secret: string, fetcher: bool, t: Turn): string {
    if fetcher && t.token.Some? then t.token.value else secret
  }

  function Connections(secret: string, fetcher: bool, t: Turn): seq<Event> {
    var first := Secret(secret, fetcher, t);
    if t.fails(first) && first != secret then [Connected(first), Connected(secret)] else [Connected(first)]
  }

  /** The wait after turn `n`, counting from 0. */
  function Wait(n: nat): nat {
    if P2(n) < BACKOFF_MAX then P2(n) else BACKOFF_MAX
  }

  function Trace(secret: string, fetcher: bool, turns: seq<Turn>): seq<Event> {
    if turns == [] then []
    else
      var n := |turns| - 1;
      Trace(secret, fetcher, turns[..n]) + Connections(secret, fetcher, turns[n]) + [Waited(Wait(n))]
  }

  lemma TraceNext(secret: string, fetcher: bool, turns: seq<Turn>, i: nat)
    requires i < |turns|
    ensures Trace(secret, fetcher, turns[..i + 1])
            == Trace(secret, fetcher, turns[..i]) + Connections(secret, fetcher, turns[i]) + [Waited(Wait(i))]
  {
    assert turns[..i + 1][..i] == turns[..i];
  }

  /** Doubling and capping second by second is a power of two, capped. */
  lemma WaitDoubles(n: nat)
    ensures Wait(0) == BACKOFF_MIN
    ensures Wait(n + 1) == if Wait(n) * 2 > BACKOFF_MAX then BACKOFF_MAX else Wait(n) * 2
  {
    assert P2(0) == 1 && P2(n + 1) == 2 * P2(n);
  }

  /** `Run` until its context is cancelled, after the given turns.  `rulesParse` tells whether
      the allowlist does. */
  method Run(secret: string, fetcher: bool, rulesParse: bool, turns: seq<Turn>) returns (ok: bool, events: seq<Event>)
    ensures ok == rulesParse
    ensures events == if ok then Trace(secret, fetcher, turns) else []
  {
    if !rulesParse {
      return false, [];
    }
    ok, events := true, [];
    var backoff := BACKOFF_MIN;
    WaitDoubles(0);
    for i := 0 to |turns|
      invariant backoff == Wait(i)
      invariant events == Trace(secret, fetcher, turns[..i])
    {
      TraceNext(secret, fetcher, turns, i);
      var connections := Connect(secret, fetcher, turns[i]);
      events := events + connections;
      events := events + [Waited(backoff)];
      WaitDoubles(i);
      backoff := backoff * 2;
      if backoff > BACKOFF_MAX {
        backoff := BACKOFF_MAX;
      }
    }
    assert turns[..|turns|] == turns;
  }

  method Connect(secret: string, fetcher: bool, t: Turn) returns (events: seq<Event>)
    ensures events == Connections(secret, fetcher, t)
  {
    var connSecret := secret;
    if fetcher {
      if t.token.Some? {
        connSecret := t.token.value;
      }
    }
    events := [Connected(connSecret)];
    if t.fails(connSecret) && connSecret != secret {
      events := events + [Connected(secret)];
    }
  }

  // ---------------------------------------------------------------- properties

  function Waits(events: seq<Event>): seq<nat> {
    if events == [] then []
    else
      var before := Waits(events[..|events| - 1]);
      if events[|events| - 1].Waited? then before + [events[|events| - 1].seconds] else before
  }

  lemma WaitsOne(events: seq<Event>, e: Event)
    ensures Waits(events + [e]) == if e.Waited? then Waits(events) + [e.seconds] else Waits(events)
  {
    assert (events + [e])[..|events|] == events;
  }

  lemma WaitsOfTurn(before: seq<Event>, secret: string, fetcher: bool, t: Turn, n: nat)
    ensures Waits(before + Connections(secret, fetcher, t) + [Waited(n)]) == Waits(before) + [n]
  {
    var first := Secret(secret, fetcher, t);
    var cs := Connections(secret, fetcher, t);
    WaitsOne(before, Connected(first));
    if |cs| == 2 {
      assert before + cs == (before + [Connected(first)]) + [Connected(secret)];
      WaitsOne(before + [Connected(first)], Connected(secret));
    }
    WaitsOne(before + cs, Waited(n));
  }

  /** However connections end, the n-th wait is min(2^n, 30) seconds: a connection that held
      for days does not shorten the next wait. */
  lemma {:induction false} WaitsAre(secret: string, fetcher: bool, turns: seq<Turn>)
    ensures var ws := Waits(Trace(secret, fetcher, turns));
            |ws| == |turns| && forall n :: 0 <= n < |ws| ==> ws[n] == Wait(n)
  {
    if turns != [] {
      var n := |turns| - 1;
      WaitsAre(secret, fetcher, turns[..n]);
      WaitsOfTurn(Trace(secret, fetcher, turns[..n]), secret, fetcher, turns[n], Wait(n));
    }
  }

  /** All waits but the first five are the longest. */
  lemma {:induction false} WaitSettles(n: nat)
    ensures Wait(n) == BACKOFF_MAX <==> n >= 5
  {
    assert P2(1) == 2 && P2(2) == 4 && P2(3) == 8 && P2(4) == 16 && P2(5) == 32;
    if n > 5 {
      WaitSettles(n - 1);
      WaitDoubles(n - 1);
    }
  }

  /** An observer that allows a turn one connection, and a second one only with the
      long-lived secret after a first one with another. */
  datatype Phase = Start | One(secret: string) | Two | Wrong

  function Observe(ph: Phase, secret: string, e: Event): Phase {
    match e
    case Connected(s) =>
      if ph == Start then One(s) else if ph.One? && ph.secret != secret && s == secret then Two else Wrong
    case Waited(_) => if ph.One? || ph == Two then Start else Wrong
  }

  function Observed(secret: string, events: seq<Event>): Phase {
    if events == [] then Start else Observe(Observed(secret, events[..|events| - 1]), secret, events[|events| - 1])
  }

  lemma ObservedNext(secret: string, events: seq<Event>, e: Event)
    ensures Observed(secret, events + [e]) == Observe(Observed(secret, events), secret, e)
  {
    assert (events + [e])[..|events|] == events;
  }

  lemma {:induction false} ConnectionsInOrder(secret: string, fetcher: bool, turns: seq<Turn>)
    ensures Observed(secret, Trace(secret, fetcher, turns)) == Start
  {
    if turns != [] {
      var n := |turns| - 1;
      ConnectionsInOrder(secret, fetcher, turns[..n]);
      var before, cs := Trace(secret, fetcher, turns[..n]), Connections(secret, fetcher, turns[n]);
      var first := Secret(secret, fetcher, turns[n]);
      ObservedNext(secret, before, Connected(first));
      if |cs| == 2 {
        assert before + cs == before + [Connected(first)] + [Connected(secret)];
        ObservedNext(secret, before + [Connected(first)], Connected(secret));
      }
      ObservedNext(secret, before + cs, Waited(Wait(n)));
    }
  }

  /** The secrets of the connections before each wait, and of those after the last. */
  datatype Groups = Groups(done: seq<seq<string>>, now: seq<string>)

  function Grouped(events: seq<Event>): Groups {
    if events == [] then Groups([], [])
    else
      var g := Grouped(events[..|events| - 1]);
      match events[|events| - 1]
      case Connected(s) => Groups(g.done, g.now + [s])
      case Waited(_) => Groups(g.done + [g.now], [])
  }

  lemma GroupedNext(events: seq<Event>, e: Event)
    ensures var g := Grouped(events);
            Grouped(events + [e]) == if e.Connected? then Groups(g.done, g.now + [e.secret]) else Groups(g.done + [g.now], [])
  {
    assert (events + [e])[..|events|] == events;
  }

  /** The secrets of one turn: the token if the fetcher gave one, and then the long-lived
      secret exactly if the token is another and its connection failed; without a token just
      the long-lived one. */
  predicate RightSecrets(secret: string, fetcher: bool, t: Turn, used: seq<string>) {
    if !fetcher || t.token.None? then used == [secret]
    else
      var token := t.token.value;
      if token == secret || !t.fails(token) then used == [token] else used == [token, secret]
  }

  lemma GroupOfTurn(before: seq<Event>, secret: string, fetcher: bool, t: Turn, n: nat) returns (used: seq<string>)
    requires Grouped(before).now == []
    ensures RightSecrets(secret, fetcher, t, used)
    ensures Grouped(before + Connections(secret, fetcher, t) + [Waited(n)]) == Groups(Grouped(before).done + [used], [])
  {
    var first := Secret(secret, fetcher, t);
    var cs := Connections(secret, fetcher, t);
    GroupedNext(before, Connected(first));
    used := [first];
    assert [] + [first] == used;
    if |cs| == 2 {
      assert before + cs == (before + [Connected(first)]) + [Connected(secret)];
      GroupedNext(before + [Connected(first)], Connected(secret));
      used := [first] + [secret];
    }
    GroupedNext(before + cs, Waited(n));
  }

  /** As many groups as turns, each right for its turn. */
  predicate RightGroups(secret: string, fetcher: bool, turns: seq<Turn>, g: Groups) {
    g.now == [] && |g.done| == |turns| && forall i :: 0 <= i < |turns| ==> RightSecrets(secret, fetcher, turns[i], g.done[i])
  }

  lemma OneMoreGroup(secret: string, fetcher: bool, front: seq<Turn>, t: Turn, g: Groups, used: seq<string>)
    requires RightGroups(secret, fetcher, front, g) && RightSecrets(secret, fetcher, t, used)
    ensures RightGroups(secret, fetcher, front + [t], Groups(g.done + [used], []))
  {
  }

  /** In every run each turn uses its secrets as it should. */
  lemma {:induction false} SecretsUsed(secret: string, fetcher: bool, turns: seq<Turn>)
    ensures RightGroups(secret, fetcher, turns, Grouped(Trace(secret, fetcher, turns)))
  {
    if turns != [] {
      var n := |turns| - 1;
      var before := Trace(secret, fetcher, turns[..n]);
      SecretsUsed(secret, fetcher, turns[..n]);
      var used := GroupOfTurn(before, secret, fetcher, turns[n], Wait(n));
      OneMoreGroup(secret, fetcher, turns[..n], turns[n], Grouped(before), used);
      assert turns == turns[..n] + [turns[n]];
    }
  }
}
