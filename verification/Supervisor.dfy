/** The reconciler that keeps one reverse tunnel matching the polled configuration. */
module Supervisor {
  import opened Text

  /** Contexts are numbered in the order they are created. */
  datatype Event =
    | Started(ctx: nat, allowlist: seq<string>)
    | Cancelled(ctx: nat)

  /** A configuration as the control plane answers a poll. */
  datatype Config = Config(enabled: bool, allowlist: seq<string>)

  /** What should run: nothing, or a tunnel with this allowlist. */
  type Wanted = Option<seq<string>>

  function Desired(enabled: bool, allowlist: seq<string>): Wanted {
    if enabled && |allowlist| > 0 then Some(allowlist) else None
  }

  method SameAllowlist(a: array<string>, b: array<string>) returns (same: bool)
    ensures same <==> a[..] == b[..]
  {
    if a.Length != b.Length {
      return false;
    }
    for i := 0 to a.Length
      invariant a[..i] == b[..i]
    {
      if a[i] != b[i] {
        assert a[..][i] != b[..][i];
        return false;
      }
      assert a[..i + 1] == a[..i] + [a[i]] && b[..i + 1] == b[..i] + [b[i]];
    }
    assert a[..] == a[..a.Length] && b[..] == b[..b.Length];
    return true;
  }

  // ------------------------------------------- the events of a configuration history

  /** Successful polls only, each as what it wants running. */
  function Normalised(polls: seq<Option<Config>>): seq<Wanted> {
    if polls == [] then []
    else
      var rest := Normalised(polls[1..]);
      match polls[0]
      case None => rest
      case Some(c) => [Desired(c.enabled, c.allowlist)] + rest
  }

  /** Without the elements that repeat the one before, `prev` standing before the first. */
  function WithoutRepeats(prev: Wanted, ws: seq<Wanted>): seq<Wanted>
    decreases |ws|
  {
    if ws == [] then []
    else if ws[0] == prev then WithoutRepeats(prev, ws[1..])
    else [ws[0]] + WithoutRepeats(ws[0], ws[1..])
  }

  /** The latest context is the only one that can be running. */
  function Stop(running: Wanted, created: nat): seq<Event>
    requires running.Some? ==> created > 0
  {
    if running.Some? then [Cancelled(created - 1)] else []
  }

  function Begin(w: Wanted, created: nat): seq<Event> {
    if w.Some? then [Started(created, w.value)] else []
  }

  /** The events of a history: every change stops what runs and starts what is wanted,
      and the end stops what runs. */
  function Trace(running: Wanted, created: nat, changes: seq<Wanted>): seq<Event>
    requires running.Some? ==> created > 0
    decreases |changes|
  {
    if changes == [] then Stop(running, created)
    else
      Stop(running, created) + Begin(changes[0], created)
      + Trace(changes[0], if changes[0].Some? then created + 1 else created, changes[1..])
  }

  // ------------------------------------------------------------- the supervisor

  class Supervisor {
    var allowlist: array?<string>
    var cancel: Option<nat>
    var created: nat
    var events: seq<Event>

    ghost predicate Valid()
      reads this
    {
      cancel.Some? ==> allowlist != null && created > 0 && cancel.value == created - 1
    }

    /** What runs now. */
    ghost function Running(): Wanted
      requires Valid()
      reads this, if allowlist != null then {allowlist} else {}
    {
      if cancel.Some? then Some(allowlist[..]) else None
    }

    constructor ()
      ensures Valid() && Running() == None && created == 0 && events == [] && allowlist == null
    {
      allowlist, cancel, created, events := null, None, 0, [];
    }

    /** Afterwards a tunnel runs exactly if it is enabled and the list is not empty, on a copy
        of the caller's list, and nothing happened if it was running already. */
    method Apply(enabled: bool, list: array<string>)
      requires Valid()
      modifies this
      ensures Valid() && (Running().Some? <==> enabled && list.Length > 0)
      ensures Running().Some? ==> Running().value == list[..]
      ensures created == old(created) + if Running() != old(Running()) && Running().Some? then 1 else 0
      ensures events == old(events) + if Running() == old(Running()) then []
                                      else Stop(old(Running()), old(created)) + Begin(Running(), old(created))
      ensures allowlist == old(allowlist) || allowlist == null || fresh(allowlist)
    {
      var want := enabled && list.Length > 0;
      var running := cancel.Some?;
      if running == want {
        if !want {
          return;
        }
        var same := SameAllowlist(allowlist, list);
        if same {
          return;
        }
      }
      if cancel.Some? {
        events := events + [Cancelled(cancel.value)];
        cancel := None;
        allowlist := null;
      }
      if want {
        cancel := Some(created);
        created := created + 1;
        var copy := new string[list.Length](i requires 0 <= i < list.Length reads list => list[i]);
        assert copy[..] == list[..];
        allowlist := copy;
        events := events + [Started(cancel.value, allowlist[..])];
      }
    }

    /** One poll whose configuration is `enabled` and what the caller's list holds now: the
        remaining events of the history are those of the polls after it. */
    method Reconcile(enabled: bool, list: array<string>, ghost polls: seq<Option<Config>>, ghost total: seq<Event>)
      requires Valid() && polls != [] && polls[0] == Some(Config(enabled, list[..]))
      requires events + History(Running(), created, polls) == total
      modifies this
      ensures Valid() && Running() == Desired(enabled, list[..])
      ensures events + History(Running(), created, polls[1..]) == total
      ensures allowlist == old(allowlist) || allowlist == null || fresh(allowlist)
    {
      ghost var before, made, past := Running(), created, events;
      HistoryStep(before, made, polls, Desired(enabled, list[..]));
      ghost var whole := History(before, made, polls);
      Apply(enabled, list);
      Regroup(past, if Running() == before then [] else Stop(before, made) + Begin(Running(), made),
              History(Running(), created, polls[1..]), whole);
    }

    /** One successful poll: its list is a new array. */
    method ApplyConfig(c: Config, ghost polls: seq<Option<Config>>, ghost total: seq<Event>)
      requires Valid() && polls != [] && polls[0] == Some(c)
      requires events + History(Running(), created, polls) == total
      modifies this
      ensures Valid() && Running() == Desired(c.enabled, c.allowlist)
      ensures events + History(Running(), created, polls[1..]) == total
    {
      var list := new string[|c.allowlist|](j requires 0 <= j < |c.allowlist| => c.allowlist[j]);
      assert list[..] == c.allowlist;
      Reconcile(c.enabled, list, polls, total);
    }

    method StopAll()
      requires Valid()
      modifies this
      ensures Valid() && Running() == None
      ensures events == old(events) + Stop(old(Running()), old(created))
    {
      if cancel.Some? {
        events := events + [Cancelled(cancel.value)];
        cancel := None;
      }
    }
  }

  /** The events of the polls still to come. */
  function History(running: Wanted, created: nat, polls: seq<Option<Config>>): seq<Event>
    requires running.Some? ==> created > 0
  {
    Trace(running, created, WithoutRepeats(running, Normalised(polls)))
  }

  /** The events of moving to `next`, and of the polls after that. */
  lemma HistoryStep(running: Wanted, created: nat, polls: seq<Option<Config>>, next: Wanted)
    requires running.Some? ==> created > 0
    requires polls != [] && polls[0].Some? && next == Desired(polls[0].value.enabled, polls[0].value.allowlist)
    ensures next == running ==> History(running, created, polls) == [] + History(running, created, polls[1..])
    ensures next != running ==>
              History(running, created, polls)
              == (Stop(running, created) + Begin(next, created))
                 + History(next, if next.Some? then created + 1 else created, polls[1..])
  {
    var ws := Normalised(polls);
    assert ws[0] == next && ws[1..] == Normalised(polls[1..]);
    if next != running {
      var changes := WithoutRepeats(running, ws);
      assert changes[0] == next && changes[1..] == WithoutRepeats(next, ws[1..]);
    }
  }

  lemma Regroup(past: seq<Event>, step: seq<Event>, rest: seq<Event>, whole: seq<Event>)
    requires whole == step + rest
    ensures past + whole == (past + step) + rest
  {
  }

  /** Applies the initial configuration, then one poll per tick (`None` is a failed one)
      until the context ends; the events are those of the distinct wanted states. */
  method RunWith(initial: Config, polls: seq<Option<Config>>) returns (events: seq<Event>)
    ensures events == Trace(None, 0, WithoutRepeats(None, Normalised([Some(initial)] + polls)))
  {
    ghost var total := History(None, 0, [Some(initial)] + polls);
    var s := new Supervisor();
    s.ApplyConfig(initial, [Some(initial)] + polls, total);
    assert ([Some(initial)] + polls)[1..] == polls;
    for i := 0 to |polls|
      invariant s.Valid() && fresh(s)
      invariant s.events + History(s.Running(), s.created, polls[i..]) == total
    {
      assert polls[i..][0] == polls[i] && polls[i..][1..] == polls[i + 1..];
      if polls[i].None? {
        continue;
      }
      s.ApplyConfig(polls[i].value, polls[i..], total);
    }
    assert polls[|polls|..] == [];
    s.StopAll();
    return s.events;
  }

  // ------------------------------------------------------ a list that changes

  /** What happens to a caller's list: an element is overwritten, or the list is applied. */
  datatype Use = Overwrite(index: nat, value: string) | Poll(enabled: bool)

  /** The configurations applied, each with the contents the list has at that time. */
  function Seen(list: seq<string>, uses: seq<Use>): seq<Option<Config>>
    decreases |uses|
  {
    if uses == [] then []
    else
      match uses[0]
      case Overwrite(i, value) => Seen(if i < |list| then list[i := value] else list, uses[1..])
      case Poll(enabled) => [Some(Config(enabled, list))] + Seen(list, uses[1..])
  }

  /** A caller that keeps one list and overwrites it between polls: every change is noticed
      at the next poll and none is mistaken for another, as if each poll had a list of its
      own.  A supervisor that kept the caller's list would compare it with itself. */
  method RunOnOneList(list: array<string>, uses: seq<Use>) returns (events: seq<Event>)
    modifies list
    ensures events == Trace(None, 0, WithoutRepeats(None, Normalised(Seen(old(list[..]), uses))))
  {
    ghost var total := History(None, 0, Seen(list[..], uses));
    var s := new Supervisor();
    for i := 0 to |uses|
      invariant s.Valid() && fresh(s) && (s.allowlist != null ==> fresh(s.allowlist))
      invariant s.events + History(s.Running(), s.created, Seen(list[..], uses[i..])) == total
    {
      assert uses[i..][0] == uses[i] && uses[i..][1..] == uses[i + 1..];
      match uses[i] {
        case Overwrite(j, value) =>
          if j < list.Length {
            ghost var was := list[..];
            list[j] := value;
            assert list[..] == was[j := value];
          }
        case Poll(enabled) =>
          ghost var polls := Seen(list[..], uses[i..]);
          assert polls[1..] == Seen(list[..], uses[i + 1..]);
          s.Reconcile(enabled, list, polls, total);
      }
    }
    assert uses[|uses|..] == [];
    s.StopAll();
    return s.events;
  }

  // --------------------------------------------------------- at most one tunnel

  /** The contexts started and not cancelled. */
  function Live(events: seq<Event>): set<nat> {
    if events == [] then {}
    else
      var e := events[|events| - 1];
      if e.Started? then Live(events[..|events| - 1]) + {e.ctx} else Live(events[..|events| - 1]) - {e.ctx}
  }

  lemma LiveAppend(events: seq<Event>, e: Event)
    ensures Live(events + [e]) == if e.Started? then Live(events) + {e.ctx} else Live(events) - {e.ctx}
  {
    assert (events + [e])[..|events|] == events;
  }

  function RunningContext(running: Wanted, created: nat): set<nat>
    requires running.Some? ==> created > 0
  {
    if running.Some? then {created - 1} else {}
  }

  lemma LiveAfterChange(past: seq<Event>, running: Wanted, created: nat, w: Wanted)
    requires running.Some? ==> created > 0
    requires Live(past) == RunningContext(running, created)
    ensures Live(past + Stop(running, created)) == {}
    ensures Live(past + Stop(running, created) + Begin(w, created)) == if w.Some? then {created} else {}
  {
    var stopped := past + Stop(running, created);
    assert Stop(running, created) == [] ==> stopped == past;
    assert Begin(w, created) == [] ==> stopped + Begin(w, created) == stopped;
    if running.Some? {
      LiveAppend(past, Cancelled(created - 1));
    }
    if w.Some? {
      LiveAppend(stopped, Started(created, w.value));
    }
  }

  /** While one change is carried out at most one tunnel is live. */
  lemma LiveDuringChange(past: seq<Event>, running: Wanted, created: nat, w: Wanted, k: nat)
    requires running.Some? ==> created > 0
    requires Live(past) == RunningContext(running, created)
    requires k <= |Stop(running, created) + Begin(w, created)|
    ensures |Live(past + (Stop(running, created) + Begin(w, created))[..k])| <= 1
  {
    var stop, begin := Stop(running, created), Begin(w, created);
    LiveAfterChange(past, running, created, w);
    if k == 0 {
      assert past + (stop + begin)[..0] == past;
    } else if k == |stop + begin| {
      assert past + (stop + begin)[..k] == past + stop + begin;
    } else {
      assert past + (stop + begin)[..k] == past + stop;
    }
  }

  lemma LiveAfterBoth(past: seq<Event>, running: Wanted, created: nat, w: Wanted)
    requires running.Some? ==> created > 0
    requires Live(past) == RunningContext(running, created)
    ensures Live(past + (Stop(running, created) + Begin(w, created)))
            == RunningContext(w, if w.Some? then created + 1 else created)
  {
    LiveAfterChange(past, running, created, w);
    assert past + Stop(running, created) + Begin(w, created) == past + (Stop(running, created) + Begin(w, created));
  }

  lemma PrefixCases(past: seq<Event>, both: seq<Event>, rest: seq<Event>, k: nat)
    requires k <= |both + rest|
    ensures past + (both + rest)[..k]
            == if k <= |both| then past + both[..k] else (past + both) + rest[..k - |both|]
    ensures past + (both + rest) == (past + both) + rest
  {
  }

  /** At every moment of a history, continued from any point at which `past` has
      happened, at most one tunnel is live, and none is at the end. */
  lemma {:induction false} TraceLive(past: seq<Event>, running: Wanted, created: nat, changes: seq<Wanted>, k: nat)
    requires running.Some? ==> created > 0
    requires Live(past) == RunningContext(running, created)
    requires k <= |Trace(running, created, changes)|
    ensures |Live(past + Trace(running, created, changes)[..k])| <= 1
    ensures Live(past + Trace(running, created, changes)) == {}
    decreases |changes|
  {
    var w := if changes == [] then None else changes[0];
    var created' := if w.Some? then created + 1 else created;
    var both := Stop(running, created) + Begin(w, created);
    var rest := if changes == [] then [] else Trace(w, created', changes[1..]);
    TraceUnfolds(running, created, changes);
    LiveAfterBoth(past, running, created, w);
    PrefixCases(past, both, rest, k);
    if k <= |both| {
      LiveDuringChange(past, running, created, w, k);
    }
    if changes == [] {
      assert (past + both) + [] == past + both;
    } else {
      TraceLive(past + both, w, created', changes[1..], if k <= |both| then 0 else k - |both|);
    }
  }

  lemma TraceUnfolds(running: Wanted, created: nat, changes: seq<Wanted>)
    requires running.Some? ==> created > 0
    ensures var w := if changes == [] then None else changes[0];
            Trace(running, created, changes)
            == (Stop(running, created) + Begin(w, created))
               + if changes == [] then [] else Trace(w, if w.Some? then created + 1 else created, changes[1..])
  {
  }

  /** For every configuration history: after each prefix of its events at most one
      started tunnel is uncancelled, when the supervisor returns none is, and no tunnel
      was started with an empty allowlist. */
  lemma AtMostOneTunnel(initial: Config, polls: seq<Option<Config>>, k: nat)
    ensures var events := Trace(None, 0, WithoutRepeats(None, Normalised([Some(initial)] + polls)));
            && (k <= |events| ==> |Live(events[..k])| <= 1)
            && Live(events) == {}
            && forall e :: e in events && e.Started? ==> |e.allowlist| > 0
  {
    var all := [Some(initial)] + polls;
    var changes := WithoutRepeats(None, Normalised(all));
    var events := Trace(None, 0, changes);
    TraceLive([], None, 0, changes, if k <= |events| then k else 0);
    assert [] + events == events;
    assert k <= |events| ==> [] + events[..k] == events[..k];
    NormalisedWantsNonEmpty(all);
    ChangesAreWanted(None, Normalised(all));
    StartsAreWanted(None, 0, changes);
  }

  lemma {:induction false} NormalisedWantsNonEmpty(polls: seq<Option<Config>>)
    ensures forall w :: w in Normalised(polls) && w.Some? ==> |w.value| > 0
  {
    if polls != [] {
      NormalisedWantsNonEmpty(polls[1..]);
    }
  }

  lemma {:induction false} ChangesAreWanted(prev: Wanted, ws: seq<Wanted>)
    ensures forall w :: w in WithoutRepeats(prev, ws) ==> w in ws
    decreases |ws|
  {
    if ws != [] {
      ChangesAreWanted(prev, ws[1..]);
      ChangesAreWanted(ws[0], ws[1..]);
    }
  }

  lemma {:induction false} StartsAreWanted(running: Wanted, created: nat, changes: seq<Wanted>)
    requires running.Some? ==> created > 0
    ensures forall e :: e in Trace(running, created, changes) && e.Started? ==> Some(e.allowlist) in changes
    decreases |changes|
  {
    if changes != [] {
      var w := changes[0];
      StartsAreWanted(w, if w.Some? then created + 1 else created, changes[1..]);
    }
  }

  // ------------------------------------------------ the tunnel follows the polls

  /** The configuration of the last successful poll, `last` being the one before all of them. */
  function LastSuccessful(last: Config, polls: seq<Option<Config>>): Config
    decreases |polls|
  {
    if polls == [] then last
    else LastSuccessful(if polls[0].Some? then polls[0].value else last, polls[1..])
  }

  /** The events without those of the end. */
  function Open(running: Wanted, created: nat, changes: seq<Wanted>): seq<Event>
    requires running.Some? ==> created > 0
    decreases |changes|
  {
    if changes == [] then []
    else
      (Stop(running, created) + Begin(changes[0], created))
      + Open(changes[0], if changes[0].Some? then created + 1 else created, changes[1..])
  }

  /** The events of some polls, up to and with the last of them. */
  function Sofar(running: Wanted, created: nat, polls: seq<Option<Config>>): seq<Event>
    requires running.Some? ==> created > 0
  {
    Open(running, created, WithoutRepeats(running, Normalised(polls)))
  }

  lemma SofarStep(running: Wanted, created: nat, polls: seq<Option<Config>>)
    requires running.Some? ==> created > 0
    requires polls != []
    ensures polls[0].None? ==> Sofar(running, created, polls) == Sofar(running, created, polls[1..])
    ensures polls[0].Some? ==>
              var next := Desired(polls[0].value.enabled, polls[0].value.allowlist);
              Sofar(running, created, polls)
              == if next == running then Sofar(running, created, polls[1..])
                 else (Stop(running, created) + Begin(next, created))
                      + Sofar(next, if next.Some? then created + 1 else created, polls[1..])
  {
    if polls[0].Some? {
      var ws := Normalised(polls);
      var next := Desired(polls[0].value.enabled, polls[0].value.allowlist);
      assert ws[0] == next && ws[1..] == Normalised(polls[1..]);
      if next != running {
        var changes := WithoutRepeats(running, ws);
        assert changes[0] == next && changes[1..] == WithoutRepeats(next, ws[1..]);
      }
    }
  }

  /** After these events one context is live if the configuration is enabled and lists
      something, and carries its list; otherwise none is. */
  ghost predicate Serves(events: seq<Event>, c: Config) {
    && |Live(events)| == (if c.enabled && c.allowlist != [] then 1 else 0)
    && forall e :: e in events && e.Started? && e.ctx in Live(events) ==> e.allowlist == c.allowlist
  }

  /** What the events have left behind. */
  ghost predicate Leaves(events: seq<Event>, running: Wanted, created: nat)
    requires running.Some? ==> created > 0
  {
    && Live(events) == RunningContext(running, created)
    && forall e :: e in events && e.Started? ==>
         e.ctx < created && (running.Some? && e.ctx == created - 1 ==> e.allowlist == running.value)
  }

  lemma LeavesNext(past: seq<Event>, running: Wanted, created: nat, next: Wanted)
    requires running.Some? ==> created > 0
    requires Leaves(past, running, created)
    ensures Leaves(past + (Stop(running, created) + Begin(next, created)), next, if next.Some? then created + 1 else created)
  {
    LiveAfterBoth(past, running, created, next);
    var step := Stop(running, created) + Begin(next, created);
    forall e | e in past + step && e.Started? ensures e in past || (next.Some? && e == Started(created, next.value)) {
      if e !in past {
        assert e in Stop(running, created) || e in Begin(next, created);
      }
    }
  }

  /** What runs after some polls, and how many contexts there have been. */
  lemma {:induction false} LeavesAfterPolls(past: seq<Event>, running: Wanted, created: nat, last: Config, polls: seq<Option<Config>>)
    returns (running': Wanted, created': nat)
    requires running.Some? ==> created > 0
    requires Leaves(past, running, created) && running == Desired(last.enabled, last.allowlist)
    ensures running'.Some? ==> created' > 0
    ensures Leaves(past + Sofar(running, created, polls), running', created')
    ensures var c := LastSuccessful(last, polls); running' == Desired(c.enabled, c.allowlist)
    ensures History(running, created, polls) == Sofar(running, created, polls) + Stop(running', created')
    decreases |polls|
  {
    if polls == [] {
      assert past + [] == past;
      running', created' := running, created;
    } else if polls[0].None? {
      running', created' := LeavesAfterPolls(past, running, created, last, polls[1..]);
    } else {
      var c := polls[0].value;
      var next := Desired(c.enabled, c.allowlist);
      HistoryStep(running, created, polls, next);
      SofarStep(running, created, polls);
      if next == running {
        running', created' := LeavesAfterPolls(past, running, created, c, polls[1..]);
      } else {
        var step, more := Stop(running, created) + Begin(next, created), if next.Some? then created + 1 else created;
        LeavesNext(past, running, created, next);
        running', created' := LeavesAfterPolls(past + step, next, more, c, polls[1..]);
        Regrouped(past, step, Sofar(next, more, polls[1..]));
        Regrouped(step, Sofar(next, more, polls[1..]), Stop(running', created'));
      }
    }
  }

  lemma LeavesServes(events: seq<Event>, running: Wanted, created: nat, c: Config)
    requires running.Some? ==> created > 0
    requires Leaves(events, running, created) && running == Desired(c.enabled, c.allowlist)
    ensures Serves(events, c)
  {
  }

  lemma {:induction false} SofarGrows(running: Wanted, created: nat, polls: seq<Option<Config>>, i: nat)
    requires running.Some? ==> created > 0
    requires i <= |polls|
    ensures Sofar(running, created, polls[..i]) <= Sofar(running, created, polls)
    decreases |polls|
  {
    if i > 0 {
      SofarStep(running, created, polls);
      SofarStep(running, created, polls[..i]);
      assert polls[..i][1..] == polls[1..][..i - 1];
      var next := if polls[0].Some? then Desired(polls[0].value.enabled, polls[0].value.allowlist) else running;
      SofarGrows(next, if next != running && next.Some? then created + 1 else created, polls[1..], i - 1);
    } else {
      assert polls[..i] == [];
    }
  }

  /** For every history of polls: at each of them a tunnel is live exactly if the last
      successful poll was enabled with a list that is not empty, and it carries that list;
      the end cancels it and does nothing else. */
  lemma TunnelFollowsPolls(polls: seq<Option<Config>>, i: nat)
    requires i <= |polls|
    ensures var events := Trace(None, 0, WithoutRepeats(None, Normalised(polls)));
            var before := Sofar(None, 0, polls[..i]);
            && before <= events && Serves(before, LastSuccessful(Config(false, []), polls[..i]))
            && (i == |polls| ==>
                  if Live(before) == {} then events == before
                  else exists c :: Live(before) == {c} && events == before + [Cancelled(c)])
  {
    var none := Config(false, []);
    var running, created := LeavesAfterPolls([], None, 0, none, polls[..i]);
    var before := Sofar(None, 0, polls[..i]);
    assert [] + before == before;
    LeavesServes(before, running, created, LastSuccessful(none, polls[..i]));
    SofarGrows(None, 0, polls, i);
    var r, c := LeavesAfterPolls([], None, 0, none, polls);
    assert before <= Sofar(None, 0, polls) <= History(None, 0, polls);
    if i == |polls| {
      assert polls[..i] == polls;
    }
  }

  /** The same of `RunWith`: its last successful poll may be the initial configuration. */
  lemma TunnelFollowsRun(initial: Config, polls: seq<Option<Config>>) returns (before: seq<Event>)
    ensures var events := Trace(None, 0, WithoutRepeats(None, Normalised([Some(initial)] + polls)));
            && Serves(before, LastSuccessful(initial, polls))
            && if Live(before) == {} then events == before
               else exists c :: Live(before) == {c} && events == before + [Cancelled(c)]
  {
    var all := [Some(initial)] + polls;
    before := Sofar(None, 0, all);
    assert all[..|all|] == all && all[1..] == polls;
    TunnelFollowsPolls(all, |all|);
  }
}
