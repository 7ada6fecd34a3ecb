/** The eBPF network policy: a traffic profile compiled into a chain of its own. */
module NetworkPolicy {
  import opened Text
  import opened Iptables

  const NET := "NEXPLANE_NET"
  const NETWORK := "ebpf_network"

  /** The JSON value of a flow's `dst_port`. */
  datatype PortField = NoPort | Number(n: int) | Words(s: string)

  /** A flow of the profile; entries that are no objects are `NotAnObject`. */
  datatype Flow = NotAnObject | Flow(protocol: string, proto: string, dstPort: PortField)

  datatype Mode = Audit | Enforce

  function ModeOf(mode: string): Option<Mode> {
    if mode == "audit" then Some(Audit) else if mode == "enforce" then Some(Enforce) else None
  }

  function Protocol(f: Flow): string
    requires f.Flow?
  {
    if f.protocol == "" then f.proto else f.protocol
  }

  /** `fmt.Sprintf("%d", …)` or the text itself. */
  function PortText(f: Flow): string
    requires f.Flow?
  {
    match f.dstPort
    case NoPort => ""
    case Number(n) => if n < 0 then "-" + Decimal(-n) else Decimal(n)
    case Words(s) => s
  }

  /** Flows the loop passes over. */
  predicate Skipped(f: Flow) {
    f.NotAnObject? || Protocol(f) == "" || PortText(f) == "" || PortText(f) == "0"
  }

  /** How iptables reads the protocol and the port of a command: the match of the rule, or
      `None` when it rejects the command.  Ranges, service names, other protocols and odd
      numerals are its own affair. */
  type Reader = (string, string) -> Option<Match>

  /** The match of a flow's rule, if it gets one. */
  function FlowMatch(read: Reader, f: Flow): Option<Match> {
    if Skipped(f) then None else read(Protocol(f), PortText(f))
  }

  /** A port in its plain form: a numeral from 1 to 65535. */
  function PlainPort(s: string): Option<int> {
    if s == "" || !AllDigits(s) || s[0] == '0' || DigitsValue(s) > 65535 then None else Some(DigitsValue(s))
  }

  predicate IsTcpOrUdp(proto: string) {
    proto == "tcp" || proto == "udp"
  }

  /** All that is known of iptables: it takes plain tcp and udp ports for what they are. */
  ghost predicate ReadsPlainPorts(read: Reader) {
    forall proto, s :: IsTcpOrUdp(proto) && PlainPort(s).Some? ==> read(proto, s) == Some(Port(proto, PlainPort(s).value))
  }

  function TargetOf(mode: Mode): Target {
    if mode == Audit then LOG else ACCEPT
  }

  function Compiled(read: Reader, flows: seq<Flow>, mode: Mode): seq<Rule> {
    if flows == [] then []
    else
      var rest := Compiled(read, flows[..|flows| - 1], mode);
      match FlowMatch(read, flows[|flows| - 1])
      case None => rest
      case Some(m) => rest + [Rule(m, TargetOf(mode))]
  }

  function Added(flows: seq<Flow>): nat {
    if flows == [] then 0
    else Added(flows[..|flows| - 1]) + if Skipped(flows[|flows| - 1]) then 0 else 1
  }

  const DROP_ALL := Rule(All, DROP)
  const TO_NET := Rule(All, Jump(NET))

  /** What a run appends to the chain, and the table it leaves. */
  function NewRules(read: Reader, flows: seq<Flow>, mode: Mode): seq<Rule> {
    if mode == Enforce then Compiled(read, flows, mode) + [DROP_ALL] else Compiled(read, flows, mode)
  }

  function Extended(t: Table, rules: seq<Rule>): Table {
    t.(chains := t.chains[NET := Rules(t, NET) + rules])
  }

  function Configured(read: Reader, t: Table, flows: seq<Flow>, mode: Mode): Table {
    InsertFirst(Extended(t, NewRules(read, flows, mode)), OUTPUT, TO_NET)
  }

  lemma ExtendedByNone(t: Table)
    ensures NewChain(t, NET) == Extended(t, [])
  {
    assert Rules(t, NET) + [] == Rules(t, NET);
    if NET in t.chains {
      assert t.chains[NET := t.chains[NET]] == t.chains;
    }
  }

  lemma ExtendedByOne(t: Table, rules: seq<Rule>, r: Rule)
    ensures Append(Extended(t, rules), NET, r) == Extended(t, rules + [r])
  {
    assert Rules(t, NET) + rules + [r] == Rules(t, NET) + (rules + [r]);
    var before := t.chains[NET := Rules(t, NET) + rules];
    assert before[NET := Rules(t, NET) + (rules + [r])] == t.chains[NET := Rules(t, NET) + (rules + [r])];
  }

  lemma CompiledNext(read: Reader, flows: seq<Flow>, i: nat, mode: Mode)
    requires i < |flows|
    ensures Compiled(read, flows[..i + 1], mode)
            == if FlowMatch(read, flows[i]).Some? then Compiled(read, flows[..i], mode) + [Rule(FlowMatch(read, flows[i]).value, TargetOf(mode))]
               else Compiled(read, flows[..i], mode)
    ensures Added(flows[..i + 1]) == Added(flows[..i]) + if Skipped(flows[i]) then 0 else 1
  {
    assert flows[..i + 1][..i] == flows[..i];
  }

  /** The host's filter table and its mode files, one for each policy type. */
  class Host {
    var table: Table
    var modes: map<string, string>

    constructor (t: Table, files: map<string, string>)
      ensures table == t && modes == files
    {
      table, modes := t, files;
    }

    /** The chain and its rules. */
    method Compile(read: Reader, mode: string, flows: seq<Flow>) returns (rulesAdded: nat)
      requires ModeOf(mode).Some?
      modifies this
      ensures modes == old(modes) && rulesAdded == Added(flows)
      ensures table == Extended(old(table), NewRules(read, flows, ModeOf(mode).value))
    {
      ghost var m := ModeOf(mode).value;
      table := NewChain(table, NET);
      ExtendedByNone(old(table));
      rulesAdded := 0;
      for i := 0 to |flows|
        invariant modes == old(modes)
        invariant table == Extended(old(table), Compiled(read, flows[..i], m))
        invariant rulesAdded == Added(flows[..i])
      {
        CompiledNext(read, flows, i, m);
        if Skipped(flows[i]) {
          continue;
        }
        var match_ := FlowMatch(read, flows[i]);
        if match_.Some? {
          var r := Rule(match_.value, if mode == "audit" then LOG else ACCEPT);
          ExtendedByOne(old(table), Compiled(read, flows[..i], m), r);
          table := Append(table, NET, r);
        }
        rulesAdded := rulesAdded + 1;
      }
      assert flows[..|flows|] == flows;
      if mode == "enforce" {
        ExtendedByOne(old(table), Compiled(read, flows, m), DROP_ALL);
        table := Append(table, NET, DROP_ALL);
      }
    }

    /** `ConfigureEbpfNetworkExecute`; `snapshot` is the saved table. */
    method Configure(read: Reader, mode: string, flows: seq<Flow>) returns (ok: bool, rulesAdded: nat, snapshot: Option<Table>)
      modifies this
      ensures ok <==> ModeOf(mode).Some?
      ensures !ok ==> table == old(table) && modes == old(modes) && snapshot == None && rulesAdded == 0
      ensures ok ==> table == Configured(read, old(table), flows, ModeOf(mode).value)
                     && modes == old(modes)[NETWORK := mode] && snapshot == Some(old(table)) && rulesAdded == Added(flows)
    {
      if mode != "audit" && mode != "enforce" {
        return false, 0, None;
      }
      snapshot := Some(table);
      rulesAdded := Compile(read, mode, flows);
      table := InsertFirst(table, OUTPUT, TO_NET);
      modes := modes[NETWORK := mode];
      ok := true;
    }

    /** `ConfigureEbpfNetworkRollback`; `snapshot` is the saved table if it can be read. */
    method Rollback(snapshot: Option<Table>)
      modifies this
      ensures table == if snapshot.Some? then snapshot.value else Undone(old(table))
      ensures modes == old(modes)[NETWORK := ""]
    {
      table := Delete(table, OUTPUT, TO_NET);
      table := Flush(table, NET);
      table := DeleteChain(table, NET);
      if snapshot.Some? {
        table := snapshot.value;
      }
      modes := modes[NETWORK := ""];
    }
  }

  function Undone(t: Table): Table {
    DeleteChain(Flush(Delete(t, OUTPUT, TO_NET), NET), NET)
  }

  // --------------------------------------------------- what the profile allows

  predicate MatchesFlow(read: Reader, w: World, f: Flow, p: Packet) {
    FlowMatch(read, f).Some? && Matches(w, FlowMatch(read, f).value, p)
  }

  /** The packets some flow of the profile stands for. */
  predicate InProfile(read: Reader, w: World, flows: seq<Flow>, p: Packet) {
    exists f :: f in flows && MatchesFlow(read, w, f, p)
  }

  function Allows(read: Reader, w: World, flows: seq<Flow>, p: Packet): Policy {
    if InProfile(read, w, flows, p) then AcceptAll else DropAll
  }

  lemma {:induction false} CompiledLogs(read: Reader, flows: seq<Flow>)
    ensures OnlyLogs(Compiled(read, flows, Audit))
  {
    if flows != [] {
      CompiledLogs(read, flows[..|flows| - 1]);
    }
  }

  lemma InProfileLast(read: Reader, w: World, flows: seq<Flow>, p: Packet)
    requires flows != []
    ensures InProfile(read, w, flows, p)
            <==> InProfile(read, w, flows[..|flows| - 1], p) || MatchesFlow(read, w, flows[|flows| - 1], p)
  {
    var front, last := flows[..|flows| - 1], flows[|flows| - 1];
    assert forall f :: f in flows <==> f in front || f == last;
  }

  /** The compiled chain accepts exactly the packets of the profile. */
  lemma {:induction false} CompiledAccepts(read: Reader, w: World, t: Table, flows: seq<Flow>, p: Packet, depth: nat)
    ensures Walk(w, t, Compiled(read, flows, Enforce), p, depth) == if InProfile(read, w, flows, p) then Accepted else Continued
  {
    if flows != [] {
      var front, last := flows[..|flows| - 1], flows[|flows| - 1];
      CompiledAccepts(read, w, t, front, p, depth);
      InProfileLast(read, w, flows, p);
      if FlowMatch(read, last).Some? {
        var r := Rule(FlowMatch(read, last).value, ACCEPT);
        WalkAppend(w, t, Compiled(read, front, Enforce), [r], p, depth);
        WalkOne(w, t, r, p, depth);
      }
    }
  }

  lemma WalkOne(w: World, t: Table, r: Rule, p: Packet, depth: nat)
    requires r.target == ACCEPT || r.target == DROP
    ensures Walk(w, t, [r], p, depth)
            == if !Matches(w, r.match_, p) then Continued else if r.target == ACCEPT then Accepted else Dropped
  {
  }

  // ------------------------------------------------------------------- audit

  /** Auditing changes no verdict of any chain, and can be repeated. */
  lemma AuditChangesNothing(read: Reader, w: World, t: Table, flows: seq<Flow>, chain: string, p: Packet, depth: nat)
    requires OUTPUT in t.chains && OnlyLogs(Rules(t, NET)) && chain != NET
    ensures Verdict(w, Configured(read, t, flows, Audit), chain, p, depth) == Verdict(w, t, chain, p, depth)
    ensures OUTPUT in Configured(read, t, flows, Audit).chains && OnlyLogs(Rules(Configured(read, t, flows, Audit), NET))
  {
    var t' := Configured(read, t, flows, Audit);
    var mid := Extended(t, NewRules(read, flows, Audit));
    CompiledLogs(read, flows);
    assert OnlyLogs(Rules(mid, NET));
    assert Rules(t', NET) == Rules(mid, NET);
    assert SameButLogs(t, mid, NET);
    assert Rules(t, chain) == Rules(mid, chain);
    WalkIgnoresLogs(w, t, mid, NET, Rules(t, chain), p, depth);
    LeadingJumpIsIdle(w, mid, t', Rules(mid, chain), p, depth);
    if chain == OUTPUT {
      IdleJumpFirst(w, t', Rules(mid, OUTPUT), p, depth);
      assert Rules(t', OUTPUT) == [TO_NET] + Rules(mid, OUTPUT);
    }
  }

  /** A jump to a chain of LOG rules in front of a list changes nothing. */
  lemma IdleJumpFirst(w: World, t: Table, rules: seq<Rule>, p: Packet, depth: nat)
    requires OnlyLogs(Rules(t, NET))
    ensures Walk(w, t, [TO_NET] + rules, p, depth) == Walk(w, t, rules, p, depth)
  {
    assert ([TO_NET] + rules)[1..] == rules;
    if depth > 0 {
      LogsContinue(w, t, Rules(t, NET), p, depth - 1);
    }
  }

  /** Tables that differ by such a jump in front of OUTPUT walk alike. */
  lemma {:induction false} LeadingJumpIsIdle(w: World, t: Table, t': Table, rules: seq<Rule>, p: Packet, depth: nat)
    requires OnlyLogs(Rules(t', NET)) && Rules(t', OUTPUT) == [TO_NET] + Rules(t, OUTPUT)
    requires forall c :: c != OUTPUT ==> Rules(t', c) == Rules(t, c)
    ensures Walk(w, t', rules, p, depth) == Walk(w, t, rules, p, depth)
    decreases depth, |rules|
  {
    if rules != [] {
      LeadingJumpIsIdle(w, t, t', rules[1..], p, depth);
      if rules[0].target.Jump? && depth > 0 {
        var c := rules[0].target.chain;
        LeadingJumpIsIdle(w, t, t', Rules(t, c), p, depth - 1);
        if c == OUTPUT {
          IdleJumpFirst(w, t', Rules(t, OUTPUT), p, depth - 1);
        }
      }
    }
  }

  function AuditRuns(read: Reader, t: Table, profiles: seq<seq<Flow>>): Table
    decreases |profiles|
  {
    if profiles == [] then t else AuditRuns(read, Configured(read, t, profiles[0], Audit), profiles[1..])
  }

  /** Any number of audit runs, on whatever the other chains hold. */
  lemma {:induction false} AuditRunsChangeNothing(read: Reader, w: World, t: Table, profiles: seq<seq<Flow>>, chain: string, p: Packet, depth: nat)
    requires OUTPUT in t.chains && OnlyLogs(Rules(t, NET)) && chain != NET
    ensures Verdict(w, AuditRuns(read, t, profiles), chain, p, depth) == Verdict(w, t, chain, p, depth)
    decreases |profiles|
  {
    if profiles != [] {
      AuditChangesNothing(read, w, t, profiles[0], chain, p, depth);
      AuditRunsChangeNothing(read, w, Configured(read, t, profiles[0], Audit), profiles[1..], chain, p, depth);
    }
  }

  /** A packet that gets this far in a chain is logged by one of its rules. */
  predicate HitsLog(w: World, rules: seq<Rule>, p: Packet) {
    exists r :: r in rules && r.target == LOG && Matches(w, r.match_, p)
  }

  lemma HitsLogOfBoth(w: World, a: seq<Rule>, b: seq<Rule>, p: Packet)
    ensures HitsLog(w, a + b, p) <==> HitsLog(w, a, p) || HitsLog(w, b, p)
  {
    assert forall r :: r in a + b <==> r in a || r in b;
  }

  lemma {:induction false} CompiledHits(read: Reader, w: World, flows: seq<Flow>, p: Packet)
    ensures HitsLog(w, Compiled(read, flows, Audit), p) <==> InProfile(read, w, flows, p)
  {
    if flows != [] {
      var front, last := flows[..|flows| - 1], flows[|flows| - 1];
      CompiledHits(read, w, front, p);
      InProfileLast(read, w, flows, p);
      if FlowMatch(read, last).Some? {
        var r := Rule(FlowMatch(read, last).value, LOG);
        HitsLogOfBoth(w, Compiled(read, front, Audit), [r], p);
        assert r in [r];
      }
    }
  }

  /** An audit run logs exactly the packets of the profile, beside those that were logged
      before: everything that leaves goes through the chain first, and the chain decides nothing. */
  lemma AuditLogsExactly(read: Reader, w: World, t: Table, flows: seq<Flow>, p: Packet)
    requires OUTPUT in t.chains && OnlyLogs(Rules(t, NET))
    ensures var t' := Configured(read, t, flows, Audit);
            && Rules(t', OUTPUT) == [TO_NET] + Rules(t, OUTPUT) && OnlyLogs(Rules(t', NET))
            && (HitsLog(w, Rules(t', NET), p) <==> HitsLog(w, Rules(t, NET), p) || InProfile(read, w, flows, p))
  {
    var t' := Configured(read, t, flows, Audit);
    assert Rules(t', NET) == Rules(t, NET) + Compiled(read, flows, Audit);
    CompiledLogs(read, flows);
    HitsLogOfBoth(w, Rules(t, NET), Compiled(read, flows, Audit), p);
    CompiledHits(read, w, flows, p);
  }

  // ----------------------------------------------------------------- enforce

  /** Rules that decide or log, as the agent's own do. */
  predicate Plain(rules: seq<Rule>) {
    forall r :: r in rules ==> r.target == ACCEPT || r.target == DROP || r.target == LOG
  }

  lemma {:induction false} PlainWalk(w: World, t: Table, t': Table, rules: seq<Rule>, p: Packet, depth: nat, depth': nat)
    requires Plain(rules)
    ensures Walk(w, t, rules, p, depth) == Walk(w, t', rules, p, depth') != Returned
  {
    if rules != [] {
      PlainWalk(w, t, t', rules[1..], p, depth, depth');
    }
  }

  lemma {:induction false} CompiledIsPlain(read: Reader, flows: seq<Flow>, mode: Mode)
    ensures Plain(NewRules(read, flows, mode)) && Plain(Compiled(read, flows, mode))
  {
    if flows != [] {
      CompiledIsPlain(read, flows[..|flows| - 1], mode);
    }
  }

  /** What an enforcing run decides: the old rules of the chain first, then the profile,
      and nothing reaches the rest of OUTPUT. */
  lemma EnforceVerdict(read: Reader, w: World, t: Table, flows: seq<Flow>, p: Packet, depth: nat)
    requires OUTPUT in t.chains && Plain(Rules(t, NET)) && depth > 0
    ensures Verdict(w, Configured(read, t, flows, Enforce), OUTPUT, p, depth)
            == match Walk(w, t, Rules(t, NET), p, depth)
               case Accepted => AcceptAll
               case Dropped => DropAll
               case _ => Allows(read, w, flows, p)
  {
    var t' := Configured(read, t, flows, Enforce);
    assert Rules(t', OUTPUT)[0] == TO_NET;
    assert Rules(t', NET) == Rules(t, NET) + NewRules(read, flows, Enforce);
    WalkAppend(w, t', Rules(t, NET), NewRules(read, flows, Enforce), p, depth - 1);
    EnforcingRulesDecide(read, w, t', flows, p, depth - 1);
    PlainWalk(w, t, t', Rules(t, NET), p, depth, depth - 1);
  }

  lemma EnforcingRulesDecide(read: Reader, w: World, t: Table, flows: seq<Flow>, p: Packet, depth: nat)
    ensures Walk(w, t, NewRules(read, flows, Enforce), p, depth) == if InProfile(read, w, flows, p) then Accepted else Dropped
  {
    WalkAppend(w, t, Compiled(read, flows, Enforce), [DROP_ALL], p, depth);
    CompiledAccepts(read, w, t, flows, p, depth);
    WalkOne(w, t, DROP_ALL, p, depth);
  }

  /** One enforcing run on a chain that only logs accepts exactly the profile's packets and
      drops the rest, whatever OUTPUT held and however iptables reads the profile. */
  lemma EnforceMeansProfile(read: Reader, w: World, t: Table, flows: seq<Flow>, p: Packet, depth: nat)
    requires OUTPUT in t.chains && OnlyLogs(Rules(t, NET)) && depth > 0
    ensures Verdict(w, Configured(read, t, flows, Enforce), OUTPUT, p, depth) == Allows(read, w, flows, p)
  {
    EnforceVerdict(read, w, t, flows, p, depth);
    LogsContinue(w, t, Rules(t, NET), p, depth);
  }

  /** A flow that names no protocol or no port: the first of two fields counts that is not
      empty, and the port 0 is none. */
  predicate SaysNothing(f: Flow) {
    f.NotAnObject? || (f.protocol == "" && f.proto == "")
    || f.dstPort == NoPort || f.dstPort == Number(0) || f.dstPort == Words("") || f.dstPort == Words("0")
  }

  predicate HasProtocol(f: Flow, proto: string) {
    f.Flow? && (f.protocol == proto || (f.protocol == "" && f.proto == proto))
  }

  /** The port as a number or as its plain numeral. */
  predicate HasPort(f: Flow, port: int) {
    f.Flow? && 1 <= port <= 65535 && match f.dstPort
      case NoPort => false
      case Number(n) => n == port
      case Words(s) => PlainPort(s) == Some(port)
  }

  /** A flow with a plain port of tcp or udp, unless it says nothing. */
  ghost predicate IsPlainFlow(f: Flow) {
    SaysNothing(f) || ((HasProtocol(f, "tcp") || HasProtocol(f, "udp")) && exists port :: HasPort(f, port))
  }

  predicate IsPair(f: Flow, p: Packet) {
    (p.proto == "tcp" || p.proto == "udp") && HasProtocol(f, p.proto) && HasPort(f, p.dport)
  }

  /** Exactly the flows that say nothing are passed over. */
  lemma SkippedExactly(f: Flow)
    ensures Skipped(f) <==> SaysNothing(f)
  {
    if f.Flow? && f.dstPort.Number? {
      DecimalIsZero(f.dstPort.n);
    }
  }

  /** The number reported counts the others, read by iptables or not. */
  lemma {:induction false} AddedExactly(flows: seq<Flow>)
    ensures Added(flows) == |Filter(flows, f => !SaysNothing(f))|
  {
    if flows != [] {
      var front, last := flows[..|flows| - 1], flows[|flows| - 1];
      AddedExactly(front);
      SkippedExactly(last);
      assert flows == front + [last];
      FilterConcat(front, [last], f => !SaysNothing(f));
    }
  }

  lemma DecimalIsZero(n: int)
    ensures n > 0 ==> Decimal(n) != "0" && Decimal(n) != ""
    ensures Decimal(0) == "0"
  {
    if n > 0 {
      DecimalHasNoLeadingZero(n);
    }
  }

  lemma PortIsRead(f: Flow, port: int)
    requires HasPort(f, port)
    ensures PlainPort(PortText(f)) == Some(port) && PortText(f) != "" && PortText(f) != "0"
  {
    if f.dstPort.Number? {
      PlainDecimal(port);
    }
    assert "0"[0] == '0';
  }

  /** The match of a flow that says tcp or udp and a plain port. */
  lemma PairIsRead(read: Reader, f: Flow, proto: string, port: int)
    requires ReadsPlainPorts(read) && IsTcpOrUdp(proto) && HasProtocol(f, proto) && HasPort(f, port)
    ensures FlowMatch(read, f) == Some(Port(proto, port))
  {
    PortIsRead(f, port);
    assert Protocol(f) == proto;
  }

  lemma FlowIsItsPair(read: Reader, w: World, f: Flow, p: Packet)
    requires ReadsPlainPorts(read) && IsPlainFlow(f)
    ensures MatchesFlow(read, w, f, p) <==> IsPair(f, p)
  {
    SkippedExactly(f);
    if SaysNothing(f) {
      if IsPair(f, p) {
        PortIsRead(f, p.dport);
      }
    } else {
      var port :| HasPort(f, port);
      var proto := if HasProtocol(f, "tcp") then "tcp" else "udp";
      PairIsRead(read, f, proto, port);
      if IsPair(f, p) {
        PairIsRead(read, f, p.proto, p.dport);
      }
    }
  }

  /** For a profile of such flows it accepts exactly their pairs of protocol and port. */
  lemma EnforceAcceptsPairs(read: Reader, w: World, t: Table, flows: seq<Flow>, p: Packet, depth: nat)
    requires OUTPUT in t.chains && OnlyLogs(Rules(t, NET)) && depth > 0
    requires ReadsPlainPorts(read) && forall f :: f in flows ==> IsPlainFlow(f)
    ensures Verdict(w, Configured(read, t, flows, Enforce), OUTPUT, p, depth) == AcceptAll
            <==> exists f :: f in flows && IsPair(f, p)
  {
    EnforceMeansProfile(read, w, t, flows, p, depth);
    forall f | f in flows ensures MatchesFlow(read, w, f, p) <==> IsPair(f, p) {
      FlowIsItsPair(read, w, f, p);
    }
  }

  /** In general a run enforces the profile exactly where the rules already in the chain
      do not decide otherwise. */
  lemma EnforceMeansProfileExactly(read: Reader, w: World, t: Table, flows: seq<Flow>, p: Packet, depth: nat)
    requires OUTPUT in t.chains && Plain(Rules(t, NET)) && depth > 0
    ensures var old_ := Walk(w, t, Rules(t, NET), p, depth);
            Verdict(w, Configured(read, t, flows, Enforce), OUTPUT, p, depth) == Allows(read, w, flows, p)
            <==> old_ == Continued || (old_ == Accepted <==> Allows(read, w, flows, p) == AcceptAll)
  {
    EnforceVerdict(read, w, t, flows, p, depth);
    PlainWalk(w, t, t, Rules(t, NET), p, depth, depth);
  }

  /** So enforcing again with another profile has no effect: its rules come after the
      DROP of the first run. */
  lemma SecondEnforceIsIgnored(read: Reader, w: World, t: Table, first: seq<Flow>, second: seq<Flow>, p: Packet, depth: nat)
    requires OUTPUT in t.chains && OnlyLogs(Rules(t, NET)) && depth > 0
    ensures Verdict(w, Configured(read, Configured(read, t, first, Enforce), second, Enforce), OUTPUT, p, depth) == Allows(read, w, first, p)
  {
    var t' := Configured(read, t, first, Enforce);
    assert Rules(t', NET) == Rules(t, NET) + NewRules(read, first, Enforce);
    CompiledIsPlain(read, first, Enforce);
    assert Plain(Rules(t', NET));
    EnforceVerdict(read, w, t', second, p, depth);
    WalkAppend(w, t', Rules(t, NET), NewRules(read, first, Enforce), p, depth);
    LogsContinue(w, t', Rules(t, NET), p, depth);
    EnforcingRulesDecide(read, w, t', first, p, depth);
  }

  // ---------------------------------------------------------------- rollback

  /** What the three undo commands leave of a configured table: OUTPUT as it was, and the
      chain gone, or empty when an older jump to it holds it. */
  lemma UndoneIs(read: Reader, t: Table, flows: seq<Flow>, mode: Mode)
    requires OUTPUT in t.chains
    ensures Undone(Configured(read, t, flows, mode)) == DeleteChain(Emptied(t), NET)
  {
    var t' := Configured(read, t, flows, mode);
    assert Rules(t', OUTPUT) == [TO_NET] + t.chains[OUTPUT];
    var d := Delete(t', OUTPUT, TO_NET);
    assert ([TO_NET] + t.chains[OUTPUT])[1..] == t.chains[OUTPUT];
    assert d.chains == t.chains[NET := Rules(t, NET) + NewRules(read, flows, mode)];
    assert Flush(d, NET).chains == t.chains[NET := []];
  }

  /** The table with nothing in the chain. */
  function Emptied(t: Table): Table {
    t.(chains := t.chains[NET := []])
  }

  lemma EmptiedReferences(t: Table)
    requires Rules(t, NET) == []
    ensures Referenced(Emptied(t), NET) <==> Referenced(t, NET)
  {
    var e := Emptied(t);
    forall c | c in e.chains ensures Mentions(e.chains[c], NET) <==> c in t.chains && Mentions(t.chains[c], NET) {
    }
  }

  /** Without a readable snapshot the three undo commands restore the table exactly when the
      chain held no rules before and was there only if something jumped to it, as after
      earlier runs. */
  lemma UndoRestoresExactly(read: Reader, t: Table, flows: seq<Flow>, mode: Mode)
    requires OUTPUT in t.chains
    ensures Undone(Configured(read, t, flows, mode)) == t
            <==> Rules(t, NET) == [] && (NET in t.chains <==> Referenced(t, NET))
  {
    UndoneIs(read, t, flows, mode);
    var e := Emptied(t);
    if Rules(t, NET) == [] {
      EmptiedReferences(t);
      if NET in t.chains {
        assert e.chains == t.chains;
      } else {
        assert e.chains - {NET} == t.chains;
      }
    } else {
      assert Rules(DeleteChain(e, NET), NET) == [];
    }
  }

  /** Numbers in a profile are read back as the same port. */
  lemma {:induction false} DecimalHasNoLeadingZero(n: nat)
    requires n > 0
    ensures Decimal(n)[0] != '0'
  {
    if n >= 10 {
      DecimalHasNoLeadingZero(n / 10);
    }
  }

  lemma PlainDecimal(n: nat)
    ensures PlainPort(Decimal(n)) == if 1 <= n <= 65535 then Some(n) else None
  {
    if n > 0 {
      DecimalHasNoLeadingZero(n);
    } else {
      assert Decimal(0) == "0";
    }
  }

  lemma NumberedFlow(read: Reader, f: Flow)
    requires ReadsPlainPorts(read) && f.Flow? && f.dstPort.Number? && IsTcpOrUdp(Protocol(f))
    ensures 1 <= f.dstPort.n <= 65535 ==> FlowMatch(read, f) == Some(Port(Protocol(f), f.dstPort.n))
    ensures f.dstPort.n == 0 ==> FlowMatch(read, f) == None
  {
    if f.dstPort.n >= 0 {
      PlainDecimal(f.dstPort.n);
      assert Decimal(0) == "0";
    }
  }
}
