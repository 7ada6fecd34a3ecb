/**
 Host isolation: a fixed list of firewall commands, run one by one.  A failing iptables
 command ends the run, a failing ip6tables command is passed over.
 */
module Isolation {
  import opened Text
  import opened Iptables

  datatype Edit =
    | FlushChain(chain: string)
    | AppendRule(chain: string, rule: Rule)
    | Policy(chain: string, policy: Policy)

  datatype Command = Command(v6: bool, edit: Edit)

  datatype Tables = Tables(v4: Table, v6: Table)

  function Apply(t: Table, e: Edit): Table {
    match e
    case FlushChain(c) => Flush(t, c)
    case AppendRule(c, r) => Append(t, c, r)
    case Policy(c, p) => SetPolicy(t, c, p)
  }

  function ApplyTo(ts: Tables, c: Command): Tables {
    if c.v6 then ts.(v6 := Apply(ts.v6, c.edit)) else ts.(v4 := Apply(ts.v4, c.edit))
  }

  const ESTABLISHED := Rule(Established, ACCEPT)

  function Ssh(cidr: string): Rule {
    Rule(To(cidr, "tcp", 22), ACCEPT)
  }

  function ControlPlane(ip: string): Rule {
    Rule(To(ip, "tcp", 443), ACCEPT)
  }

  const V4_COMMANDS := 7
  const ALL_COMMANDS := 12

  function Commands(cidr: string, ip: string): (cmds: seq<Command>)
    ensures |cmds| == ALL_COMMANDS
    ensures forall i :: 0 <= i < ALL_COMMANDS ==> (cmds[i].v6 <==> V4_COMMANDS <= i)
  {
    [ Command(false, FlushChain(OUTPUT)),
      Command(false, FlushChain(FORWARD)),
      Command(false, AppendRule(OUTPUT, ESTABLISHED)),
      Command(false, AppendRule(OUTPUT, Ssh(cidr))),
      Command(false, AppendRule(OUTPUT, ControlPlane(ip))),
      Command(false, Policy(OUTPUT, DropAll)),
      Command(false, Policy(FORWARD, DropAll)),
      Command(true, FlushChain(OUTPUT)),
      Command(true, FlushChain(FORWARD)),
      Command(true, AppendRule(OUTPUT, ESTABLISHED)),
      Command(true, Policy(OUTPUT, DropAll)),
      Command(true, Policy(FORWARD, DropAll)) ]
  }

  /** The tables after the first `k` commands; `works(i)` tells whether command `i` succeeds. */
  function RunTo(ts: Tables, cidr: string, ip: string, works: nat -> bool, k: nat): Tables
    requires k <= ALL_COMMANDS
  {
    if k == 0 then ts
    else
      var before := RunTo(ts, cidr, ip, works, k - 1);
      if works(k - 1) then ApplyTo(before, Commands(cidr, ip)[k - 1]) else before
  }

  datatype Error = NotRoot | Unresolved | CommandFailed(index: nat) | RestoreFailed

  class Host {
    var tables: Tables

    constructor (ts: Tables)
      ensures tables == ts
    {
      tables := ts;
    }

    /** `isolateOS`.  `ip` is the control plane's address if it can be resolved, `saved` tells
        whether `iptables-save` succeeds.  On success the saved table is returned. */
    method Isolate(isRoot: bool, saved: bool, cidr: string, ip: Option<string>, works: nat -> bool)
      returns (error: Option<Error>, state: Option<Option<Table>>)
      modifies this
      ensures !isRoot ==> error == Some(NotRoot)
      ensures isRoot && ip == None ==> error == Some(Unresolved)
      ensures error == Some(NotRoot) || error == Some(Unresolved) ==> tables == old(tables)
      ensures isRoot && ip.Some? ==>
                if error == None then
                  && (forall i :: 0 <= i < V4_COMMANDS ==> works(i))
                  && tables == RunTo(old(tables), cidr, ip.value, works, ALL_COMMANDS)
                else
                  && error.value.CommandFailed? && error.value.index < V4_COMMANDS && !works(error.value.index)
                  && (forall i :: 0 <= i < error.value.index ==> works(i))
                  && tables == RunTo(old(tables), cidr, ip.value, works, error.value.index)
      ensures state == if error == None then Some(if saved then Some(old(tables).v4) else None) else None
    {
      if !isRoot {
        return Some(NotRoot), None;
      }
      var snapshot := if saved then Some(tables.v4) else None;
      if ip == None {
        return Some(Unresolved), None;
      }
      var cmds := Commands(cidr, ip.value);
      for i := 0 to |cmds|
        invariant tables == RunTo(old(tables), cidr, ip.value, works, i)
        invariant forall j :: 0 <= j < i && j < V4_COMMANDS ==> works(j)
      {
        if !works(i) {
          if cmds[i].v6 {
            continue;
          }
          return Some(CommandFailed(i)), None;
        }
        tables := ApplyTo(tables, cmds[i]);
      }
      return None, Some(snapshot);
    }

    /** `restoreOS` with no nft ruleset saved. */
    method Restore(state: Option<Table>, works: bool) returns (error: Option<Error>)
      modifies this
      ensures error.Some? <==> state.Some? && !works
      ensures tables == if state.Some? && works then old(tables).(v4 := state.value) else old(tables)
    {
      if state.Some? {
        if !works {
          return Some(RestoreFailed);
        }
        tables := tables.(v4 := state.value);
      }
      return None;
    }
  }

  // ---------------------------------------------------- the states of the run

  predicate BuiltIn(t: Table) {
    OUTPUT in t.chains && FORWARD in t.chains
  }

  function PolicyOf(t: Table, chain: string): Policy {
    if chain in t.policies then t.policies[chain] else AcceptAll
  }

  /** OUTPUT of the IPv4 table after `k` successful commands. */
  function OutputAfter(t: Table, cidr: string, ip: string, k: nat): seq<Rule> {
    if k == 0 then Rules(t, OUTPUT)
    else if k <= 2 then []
    else if k == 3 then [ESTABLISHED]
    else if k == 4 then [ESTABLISHED, Ssh(cidr)]
    else [ESTABLISHED, Ssh(cidr), ControlPlane(ip)]
  }

  function OutputPolicyAfter(t: Table, k: nat): Policy {
    if k < 6 then PolicyOf(t, OUTPUT) else DropAll
  }

  predicate WorksTo(works: nat -> bool, k: nat) {
    forall i :: 0 <= i < k ==> works(i)
  }

  lemma {:induction false} V4States(ts: Tables, cidr: string, ip: string, works: nat -> bool, k: nat)
    requires BuiltIn(ts.v4) && k <= V4_COMMANDS && WorksTo(works, k)
    ensures var after := RunTo(ts, cidr, ip, works, k);
            && BuiltIn(after.v4) && after.v6 == ts.v6
            && Rules(after.v4, OUTPUT) == OutputAfter(ts.v4, cidr, ip, k)
            && PolicyOf(after.v4, OUTPUT) == OutputPolicyAfter(ts.v4, k)
            && (k >= 2 ==> Rules(after.v4, FORWARD) == [])
            && (k >= 7 ==> PolicyOf(after.v4, FORWARD) == DropAll)
  {
    if k > 0 {
      V4States(ts, cidr, ip, works, k - 1);
    }
  }

  lemma {:induction false} V6KeepsV4(ts: Tables, cidr: string, ip: string, works: nat -> bool, k: nat)
    requires V4_COMMANDS <= k <= ALL_COMMANDS
    ensures RunTo(ts, cidr, ip, works, k).v4 == RunTo(ts, cidr, ip, works, V4_COMMANDS).v4
  {
    if k > V4_COMMANDS {
      V6KeepsV4(ts, cidr, ip, works, k - 1);
    }
  }

  // ----------------------------------------------------------------- verdicts

  /** What isolation is meant to let out. */
  predicate Allowed(w: World, cidr: string, ip: string, p: Packet) {
    || p.established
    || (w.contains(cidr, p.dst) && p.proto == "tcp" && p.dport == 22)
    || (w.contains(ip, p.dst) && p.proto == "tcp" && p.dport == 443)
  }

  predicate Passes(w: World, t: Table, p: Packet, depth: nat) {
    Verdict(w, t, OUTPUT, p, depth) == AcceptAll
  }

  predicate MatchesOne(w: World, rules: seq<Rule>, p: Packet) {
    exists r :: r in rules && Matches(w, r.match_, p)
  }

  lemma {:induction false} WalkAccepts(w: World, t: Table, rules: seq<Rule>, p: Packet, depth: nat)
    requires forall r :: r in rules ==> r.target == ACCEPT
    ensures Walk(w, t, rules, p, depth) == if MatchesOne(w, rules, p) then Accepted else Continued
  {
    if rules != [] {
      WalkAccepts(w, t, rules[1..], p, depth);
      assert forall r :: r in rules <==> r == rules[0] || r in rules[1..];
    }
  }

  lemma FullListAllows(w: World, cidr: string, ip: string, p: Packet)
    ensures MatchesOne(w, [ESTABLISHED, Ssh(cidr), ControlPlane(ip)], p) <==> Allowed(w, cidr, ip, p)
  {
    var rules := [ESTABLISHED, Ssh(cidr), ControlPlane(ip)];
    assert ESTABLISHED in rules && Ssh(cidr) in rules && ControlPlane(ip) in rules;
  }

  /** What a packet meets after `k` commands, from the first flush on. */
  lemma VerdictAfter(w: World, ts: Tables, cidr: string, ip: string, works: nat -> bool, k: nat, p: Packet, depth: nat)
    requires BuiltIn(ts.v4) && 1 <= k <= V4_COMMANDS && WorksTo(works, k)
    ensures Passes(w, RunTo(ts, cidr, ip, works, k).v4, p, depth)
            <==> MatchesOne(w, OutputAfter(ts.v4, cidr, ip, k), p) || OutputPolicyAfter(ts.v4, k) == AcceptAll
  {
    V4States(ts, cidr, ip, works, k);
    WalkAccepts(w, RunTo(ts, cidr, ip, works, k).v4, OutputAfter(ts.v4, cidr, ip, k), p, depth);
  }

  /** A successful run leaves IPv4 open to exactly three kinds of packet, whatever the
      firewall held before and however ip6tables fares; nothing is forwarded. */
  lemma IsolationExactly(w: World, ts: Tables, cidr: string, ip: string, works: nat -> bool, p: Packet, depth: nat)
    requires BuiltIn(ts.v4) && WorksTo(works, V4_COMMANDS)
    ensures var after := RunTo(ts, cidr, ip, works, ALL_COMMANDS).v4;
            && (Passes(w, after, p, depth) <==> Allowed(w, cidr, ip, p))
            && Verdict(w, after, FORWARD, p, depth) == DropAll
  {
    V6KeepsV4(ts, cidr, ip, works, ALL_COMMANDS);
    VerdictAfter(w, ts, cidr, ip, works, V4_COMMANDS, p, depth);
    FullListAllows(w, cidr, ip, p);
    V4States(ts, cidr, ip, works, V4_COMMANDS);
  }

  /** From the first flush on no state of the run drops a packet that isolation allows. */
  ghost predicate NeverCutOff(w: World, ts: Tables, cidr: string, ip: string, works: nat -> bool, depth: nat)
    requires WorksTo(works, V4_COMMANDS)
  {
    forall k: nat, p :: 1 <= k <= ALL_COMMANDS && Allowed(w, cidr, ip, p)
      ==> Passes(w, RunTo(ts, cidr, ip, works, k).v4, p, depth)
  }

  /** That holds exactly when the OUTPUT policy was ACCEPT at the start: flushing a
      default-deny firewall cuts the agent off before its own rules are in. */
  lemma NeverCutOffExactly(w: World, ts: Tables, cidr: string, ip: string, works: nat -> bool, depth: nat)
    requires BuiltIn(ts.v4) && WorksTo(works, V4_COMMANDS)
    ensures NeverCutOff(w, ts, cidr, ip, works, depth) <==> PolicyOf(ts.v4, OUTPUT) == AcceptAll
  {
    if PolicyOf(ts.v4, OUTPUT) == AcceptAll {
      forall k: nat, p | 1 <= k <= ALL_COMMANDS && Allowed(w, cidr, ip, p)
        ensures Passes(w, RunTo(ts, cidr, ip, works, k).v4, p, depth)
      {
        if k <= V4_COMMANDS {
          VerdictAfter(w, ts, cidr, ip, works, k, p, depth);
          FullListAllows(w, cidr, ip, p);
        } else {
          V6KeepsV4(ts, cidr, ip, works, k);
          VerdictAfter(w, ts, cidr, ip, works, V4_COMMANDS, p, depth);
          FullListAllows(w, cidr, ip, p);
        }
      }
    } else {
      var p := Packet("tcp", 443, "", true);
      VerdictAfter(w, ts, cidr, ip, works, 1, p, depth);
      assert Allowed(w, cidr, ip, p) && !Passes(w, RunTo(ts, cidr, ip, works, 1).v4, p, depth);
    }
  }

  /** A run that ends early leaves such a state behind, too, and no saved table with it. */
  lemma AbortedRunIsOpen(w: World, ts: Tables, cidr: string, ip: string, works: nat -> bool, k: nat, p: Packet, depth: nat)
    requires BuiltIn(ts.v4) && 1 <= k < V4_COMMANDS && WorksTo(works, k) && PolicyOf(ts.v4, OUTPUT) == AcceptAll
    requires Allowed(w, cidr, ip, p) || k < 6
    ensures Passes(w, RunTo(ts, cidr, ip, works, k).v4, p, depth)
  {
    VerdictAfter(w, ts, cidr, ip, works, k, p, depth);
    FullListAllows(w, cidr, ip, p);
  }

  // --------------------------------------------------------------------- IPv6

  predicate NoneWorks6(works: nat -> bool) {
    forall i :: V4_COMMANDS <= i < ALL_COMMANDS ==> !works(i)
  }

  predicate AllWork6(works: nat -> bool) {
    forall i :: V4_COMMANDS <= i < ALL_COMMANDS ==> works(i)
  }

  lemma {:induction false} V6Untouched(ts: Tables, cidr: string, ip: string, works: nat -> bool, k: nat)
    requires NoneWorks6(works) && k <= ALL_COMMANDS
    ensures RunTo(ts, cidr, ip, works, k).v6 == ts.v6
  {
    if k > 0 {
      V6Untouched(ts, cidr, ip, works, k - 1);
    }
  }

  /** A chain after the commands that flush it, if `flushed`, and then append to it. */
  function ChainAfter(t: Table, chain: string, flushed: bool, added: seq<Rule>): Table
    requires chain in t.chains
  {
    t.(chains := t.chains[chain := if flushed then added else t.chains[chain] + added])
  }

  function PolicyAfter(t: Table, chain: string, set_: bool): Table {
    if set_ then SetPolicy(t, chain, DropAll) else t
  }

  /** The IPv6 table after the run: each of its five commands works or does not. */
  function V6After(t: Table, works: nat -> bool): Table
    requires BuiltIn(t)
  {
    var t1 := ChainAfter(t, OUTPUT, works(7), if works(9) then [ESTABLISHED] else []);
    var t2 := ChainAfter(t1, FORWARD, works(8), []);
    PolicyAfter(PolicyAfter(t2, OUTPUT, works(10)), FORWARD, works(11))
  }

  lemma {:induction false} V4KeepsV6(ts: Tables, cidr: string, ip: string, works: nat -> bool, k: nat)
    requires k <= V4_COMMANDS
    ensures RunTo(ts, cidr, ip, works, k).v6 == ts.v6
  {
    if k > 0 {
      V4KeepsV6(ts, cidr, ip, works, k - 1);
    }
  }

  lemma Step(ts: Tables, cidr: string, ip: string, works: nat -> bool, k: nat)
    requires 0 < k <= ALL_COMMANDS
    ensures var before := RunTo(ts, cidr, ip, works, k - 1);
            RunTo(ts, cidr, ip, works, k) == if works(k - 1) then ApplyTo(before, Commands(cidr, ip)[k - 1]) else before
  {
  }

  lemma FlushTwo(t: Table, works: nat -> bool)
    requires BuiltIn(t)
    ensures var t1 := if works(7) then Flush(t, OUTPUT) else t;
            var t2 := if works(8) then Flush(t1, FORWARD) else t1;
            var t3 := if works(9) then Append(t2, OUTPUT, ESTABLISHED) else t2;
            t3 == ChainAfter(ChainAfter(t, OUTPUT, works(7), if works(9) then [ESTABLISHED] else []), FORWARD, works(8), [])
  {
    assert [] + [ESTABLISHED] == [ESTABLISHED];
    assert t.chains[OUTPUT] + [] == t.chains[OUTPUT] && t.chains[FORWARD] + [] == t.chains[FORWARD];
    assert OUTPUT != FORWARD;
    var t1 := if works(7) then Flush(t, OUTPUT) else t;
    var t2 := if works(8) then Flush(t1, FORWARD) else t1;
    var t3 := if works(9) then Append(t2, OUTPUT, ESTABLISHED) else t2;
    var r := ChainAfter(ChainAfter(t, OUTPUT, works(7), if works(9) then [ESTABLISHED] else []), FORWARD, works(8), []);
    assert t3.chains.Keys == r.chains.Keys;
    assert t3.chains[OUTPUT] == r.chains[OUTPUT] && t3.chains[FORWARD] == r.chains[FORWARD];
    assert forall c :: c in t.chains && c != OUTPUT && c != FORWARD ==> t3.chains[c] == t.chains[c] == r.chains[c];
  }

  lemma V6States(ts: Tables, cidr: string, ip: string, works: nat -> bool)
    requires BuiltIn(ts.v6)
    ensures RunTo(ts, cidr, ip, works, ALL_COMMANDS).v6 == V6After(ts.v6, works)
  {
    V4KeepsV6(ts, cidr, ip, works, V4_COMMANDS);
    FlushTwo(ts.v6, works);
    Step(ts, cidr, ip, works, 8);
    Step(ts, cidr, ip, works, 9);
    Step(ts, cidr, ip, works, 10);
    Step(ts, cidr, ip, works, 11);
    Step(ts, cidr, ip, works, 12);
  }

  /** With ip6tables at work only established connections get out over IPv6, not even those
      to the control plane, and nothing is forwarded. */
  lemma Ipv6Exactly(w: World, ts: Tables, cidr: string, ip: string, works: nat -> bool, p: Packet, depth: nat)
    requires BuiltIn(ts.v6) && AllWork6(works)
    ensures Passes(w, RunTo(ts, cidr, ip, works, ALL_COMMANDS).v6, p, depth) <==> p.established
    ensures Verdict(w, RunTo(ts, cidr, ip, works, ALL_COMMANDS).v6, FORWARD, p, depth) == DropAll
  {
    V6States(ts, cidr, ip, works);
    var t := V6After(ts.v6, works);
    assert t.chains[OUTPUT] == [ESTABLISHED] && t.policies[OUTPUT] == DropAll;
    assert t.chains[FORWARD] == [] && t.policies[FORWARD] == DropAll;
    WalkAccepts(w, t, [ESTABLISHED], p, depth);
    assert ESTABLISHED in [ESTABLISHED];
  }

  /** Without ip6tables the run still succeeds, and IPv6 is as open as it was. */
  lemma Ipv6MayStayOpen(w: World, ts: Tables, cidr: string, ip: string, works: nat -> bool, p: Packet, depth: nat)
    requires NoneWorks6(works)
    ensures Passes(w, RunTo(ts, cidr, ip, works, ALL_COMMANDS).v6, p, depth) <==> Passes(w, ts.v6, p, depth)
  {
    V6Untouched(ts, cidr, ip, works, ALL_COMMANDS);
  }

  // ------------------------------------------------------------------ restore

  predicate HasPolicy(t: Table, chain: string, policy: Policy) {
    chain in t.policies && t.policies[chain] == policy
  }

  /** None of the ip6tables commands that work changes anything: OUTPUT is what flushing and
      appending would make it, FORWARD is empty if it is flushed, and policies that are set
      are DROP already. */
  predicate UnmovedByIsolation(t: Table, works: nat -> bool) {
    && BuiltIn(t)
    && (if works(7) then t.chains[OUTPUT] == (if works(9) then [ESTABLISHED] else []) else !works(9))
    && (works(8) ==> t.chains[FORWARD] == [])
    && (works(10) ==> HasPolicy(t, OUTPUT, DropAll))
    && (works(11) ==> HasPolicy(t, FORWARD, DropAll))
  }

  lemma AppendedIsLonger(rules: seq<Rule>, r: Rule)
    ensures rules + [r] != rules && rules + [] == rules
  {
    assert |rules + [r]| == |rules| + 1;
  }

  lemma UnmovedExactly(t: Table, works: nat -> bool)
    requires BuiltIn(t)
    ensures V6After(t, works) == t <==> UnmovedByIsolation(t, works)
  {
    var t' := V6After(t, works);
    AppendedIsLonger(t.chains[OUTPUT], ESTABLISHED);
    AppendedIsLonger(t.chains[FORWARD], ESTABLISHED);
    if UnmovedByIsolation(t, works) {
      assert t'.chains == t.chains && t'.policies == t.policies;
    }
    if t' == t {
      assert t'.chains[OUTPUT] == t.chains[OUTPUT] && t'.chains[FORWARD] == t.chains[FORWARD];
      assert works(10) ==> OUTPUT in t'.policies && t'.policies[OUTPUT] == DropAll;
      assert works(11) ==> FORWARD in t'.policies && t'.policies[FORWARD] == DropAll;
    }
  }

  /** Restoring the saved table undoes isolation for IPv4.  The whole firewall comes back
      exactly when the ip6tables commands that worked had found IPv6 as they leave it:
      nothing undoes them. */
  lemma RestoreExactly(ts: Tables, cidr: string, ip: string, works: nat -> bool)
    requires BuiltIn(ts.v6)
    ensures var restored := RunTo(ts, cidr, ip, works, ALL_COMMANDS).(v4 := ts.v4);
            restored == ts <==> UnmovedByIsolation(ts.v6, works)
  {
    V6States(ts, cidr, ip, works);
    UnmovedExactly(ts.v6, works);
  }
}
