/**
 A filter table as far as the agent's commands reach: chains of first-match rules, a
 policy for each built-in chain, LOG that does not terminate, and user chains that fall
 back to their caller.
 */
module Iptables {

  datatype Packet = Packet(proto: string, dport: int, dst: string, established: bool)

  datatype Match =
    | All
    | Port(proto: string, port: int)
    | Established
    | To(net: string, proto: string, port: int)
    | Other(id: nat)

  datatype Target = ACCEPT | DROP | LOG | RETURN | Jump(chain: string)

  datatype Rule = Rule(match_: Match, target: Target)

  datatype Policy = AcceptAll | DropAll

  datatype Table = Table(chains: map<string, seq<Rule>>, policies: map<string, Policy>)

  /** The parts of matching that belong to the kernel and to address syntax. */
  datatype World = World(other: (nat, Packet) -> bool, contains: (string, string) -> bool)

  const OUTPUT := "OUTPUT"
  const FORWARD := "FORWARD"

  predicate Matches(w: World, m: Match, p: Packet) {
    match m
    case All => true
    case Port(proto, port) => p.proto == proto && p.dport == port
    case Established => p.established
    case To(net, proto, port) => w.contains(net, p.dst) && p.proto == proto && p.dport == port
    case Other(id) => w.other(id, p)
  }

  function Rules(t: Table, chain: string): seq<Rule> {
    if chain in t.chains then t.chains[chain] else []
  }

  datatype Outcome = Accepted | Dropped | Returned | Continued

  /** Walks a packet down a list of rules.  `depth` bounds nested jumps: the kernel
      refuses cyclic ones, so every table has a bound. */
  function Walk(w: World, t: Table, rules: seq<Rule>, p: Packet, depth: nat): Outcome
    decreases depth, |rules|
  {
    if rules == [] then Continued
    else if !Matches(w, rules[0].match_, p) then Walk(w, t, rules[1..], p, depth)
    else
      match rules[0].target
      case ACCEPT => Accepted
      case DROP => Dropped
      case RETURN => Returned
      case LOG => Walk(w, t, rules[1..], p, depth)
      case Jump(chain) =>
        if depth == 0 then Walk(w, t, rules[1..], p, depth)
        else
          var o := Walk(w, t, Rules(t, chain), p, depth - 1);
          if o == Accepted || o == Dropped then o else Walk(w, t, rules[1..], p, depth)
  }

  /** What becomes of a packet that enters a built-in chain. */
  function Verdict(w: World, t: Table, chain: string, p: Packet, depth: nat): Policy {
    match Walk(w, t, Rules(t, chain), p, depth)
    case Accepted => AcceptAll
    case Dropped => DropAll
    case _ => if chain in t.policies then t.policies[chain] else AcceptAll
  }

  // ---------------------------------------------------------------- commands

  /** `-A`, `-I 1`, `-N`, `-F`, `-P`; a command that fails leaves the table alone. */
  function Append(t: Table, chain: string, r: Rule): Table {
    if chain in t.chains then t.(chains := t.chains[chain := t.chains[chain] + [r]]) else t
  }

  function InsertFirst(t: Table, chain: string, r: Rule): Table {
    if chain in t.chains && (r.target.Jump? ==> r.target.chain in t.chains) then
      t.(chains := t.chains[chain := [r] + t.chains[chain]])
    else t
  }

  function NewChain(t: Table, chain: string): Table {
    if chain in t.chains then t else t.(chains := t.chains[chain := []])
  }

  function Flush(t: Table, chain: string): Table {
    if chain in t.chains then t.(chains := t.chains[chain := []]) else t
  }

  function SetPolicy(t: Table, chain: string, policy: Policy): Table {
    t.(policies := t.policies[chain := policy])
  }

  function WithoutFirst(rules: seq<Rule>, r: Rule): seq<Rule> {
    if rules == [] then []
    else if rules[0] == r then rules[1..]
    else [rules[0]] + WithoutFirst(rules[1..], r)
  }

  /** `-D chain rule` deletes the first rule like it. */
  function Delete(t: Table, chain: string, r: Rule): Table {
    if chain in t.chains then t.(chains := t.chains[chain := WithoutFirst(t.chains[chain], r)]) else t
  }

  /** `-D chain number`, counting from 1. */
  function DeleteNumber(t: Table, chain: string, n: int): Table {
    if chain in t.chains && 1 <= n <= |t.chains[chain]| then
      t.(chains := t.chains[chain := t.chains[chain][..n - 1] + t.chains[chain][n..]])
    else t
  }

  predicate Mentions(rules: seq<Rule>, chain: string) {
    exists r :: r in rules && r.target == Jump(chain)
  }

  predicate Referenced(t: Table, chain: string) {
    exists c :: c in t.chains && Mentions(t.chains[c], chain)
  }

  /** `-X` refuses chains with rules and chains that are jumped to. */
  function DeleteChain(t: Table, chain: string): Table {
    if chain in t.chains && t.chains[chain] == [] && !Referenced(t, chain) then
      t.(chains := t.chains - {chain})
    else t
  }

  // ------------------------------------------------------------ about walking

  lemma {:induction false} WalkAppend(w: World, t: Table, a: seq<Rule>, b: seq<Rule>, p: Packet, depth: nat)
    ensures Walk(w, t, a + b, p, depth)
            == if Walk(w, t, a, p, depth) == Continued then Walk(w, t, b, p, depth) else Walk(w, t, a, p, depth)
  {
    if a == [] {
      assert a + b == b;
    } else {
      assert (a + b)[1..] == a[1..] + b;
      WalkAppend(w, t, a[1..], b, p, depth);
    }
  }

  predicate OnlyLogs(rules: seq<Rule>) {
    forall r :: r in rules ==> r.target == LOG
  }

  lemma {:induction false} LogsContinue(w: World, t: Table, rules: seq<Rule>, p: Packet, depth: nat)
    requires OnlyLogs(rules)
    ensures Walk(w, t, rules, p, depth) == Continued
  {
    if rules != [] {
      LogsContinue(w, t, rules[1..], p, depth);
    }
  }

  /** Two tables that differ only in one chain that does nothing but log walk alike. */
  ghost predicate SameButLogs(t: Table, t': Table, chain: string) {
    && OnlyLogs(Rules(t, chain)) && OnlyLogs(Rules(t', chain))
    && forall c :: c != chain ==> Rules(t, c) == Rules(t', c)
  }

  lemma {:induction false} WalkIgnoresLogs(w: World, t: Table, t': Table, chain: string, rules: seq<Rule>, p: Packet, depth: nat)
    requires SameButLogs(t, t', chain)
    ensures Walk(w, t, rules, p, depth) == Walk(w, t', rules, p, depth)
    decreases depth, |rules|
  {
    if rules != [] {
      WalkIgnoresLogs(w, t, t', chain, rules[1..], p, depth);
      if rules[0].target.Jump? && depth > 0 {
        var c := rules[0].target.chain;
        if c == chain {
          LogsContinue(w, t, Rules(t, c), p, depth - 1);
          LogsContinue(w, t', Rules(t', c), p, depth - 1);
        } else {
          WalkIgnoresLogs(w, t, t', chain, Rules(t, c), p, depth - 1);
        }
      }
    }
  }
}
