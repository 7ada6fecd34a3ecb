/**
 Promotion of a policy between audit and enforce: the LOG rules of the chain are deleted
 by the numbers of one listing, last line first.
 */
module Promotion {
  import opened Text
  import opened Iptables
  import opened NetworkPolicy

  const LOG_TEXT := "LOG"
  const LOG_ALL := Rule(All, LOG)

  // ------------------------------------------------------------- the listing

  /** `iptables -L … --line-numbers`: some header lines, then a numbered line for each rule. */
  datatype Printer = Printer(header: seq<string>, show: Rule -> string)

  function Numbered(rules: seq<Rule>, from: nat, show: Rule -> string): (lines: seq<string>)
    ensures |lines| == |rules|
    ensures forall k :: 0 <= k < |rules| ==> lines[k] == Decimal(from + k) + " " + show(rules[k])
  {
    if rules == [] then [] else [Decimal(from) + " " + show(rules[0])] + Numbered(rules[1..], from + 1, show)
  }

  function ListedLines(t: Table, pr: Printer): seq<string> {
    if NET in t.chains then pr.header + Numbered(t.chains[NET], 1, pr.show) + [""] else [""]
  }

  function Listing(t: Table, pr: Printer): string {
    Join(ListedLines(t, pr), '\n')
  }

  function FirstWord(s: string): string {
    if s == "" || IsSpace(s[0]) then "" else [s[0]] + FirstWord(s[1..])
  }

  /** The first of `strings.Fields`, or "" when there is none. */
  function FirstField(s: string): string {
    FirstWord(TrimLeft(s))
  }

  /** What `iptables -D chain word` takes for a rule number. */
  function RuleNumber(word: string): Option<nat> {
    if word != "" && AllDigits(word) then Some(DigitsValue(word)) else None
  }

  /** Lines are lines, and no header line begins with a number. */
  predicate Listable(t: Table, pr: Printer) {
    && (forall h :: h in pr.header ==> '\n' !in h && RuleNumber(FirstField(h)) == None)
    && forall r :: r in Rules(t, NET) ==> '\n' !in pr.show(r)
  }

  lemma {:induction false} FirstWordIs(a: string, rest: string)
    requires forall c :: c in a ==> !IsSpace(c)
    ensures FirstWord(a + " " + rest) == a
  {
    var s := a + " " + rest;
    if a == "" {
      assert s[0] == ' ';
    } else {
      assert s[0] == a[0] && a[0] in a;
      assert s[1..] == a[1..] + " " + rest;
      FirstWordIs(a[1..], rest);
    }
  }

  lemma FirstFieldIs(a: string, rest: string)
    requires a != "" && forall c :: c in a ==> !IsSpace(c)
    ensures FirstField(a + " " + rest) == a
  {
    var s := a + " " + rest;
    assert s[0] == a[0] && a[0] in a;
    assert TrimLeft(s) == s;
    FirstWordIs(a, rest);
  }

  lemma FirstFieldIsNumber(n: nat, rest: string)
    ensures RuleNumber(FirstField(Decimal(n) + " " + rest)) == Some(n)
  {
    FirstFieldIs(Decimal(n), rest);
  }

  lemma NoStartIn(head: string, rest: string, i: int)
    requires 'L' !in head && i < |head|
    ensures !OccursAt(head + rest, LOG_TEXT, i)
  {
    var s := head + rest;
    if 0 <= i <= |s| - 3 {
      assert s[i..i + 3][0] == head[i] && head[i] in head;
      assert LOG_TEXT[0] == 'L';
    }
  }

  /** The number in front of a line cannot hide or complete a LOG. */
  lemma LogIsInTheRule(n: nat, rest: string)
    ensures Contains(Decimal(n) + " " + rest, LOG_TEXT) <==> Contains(rest, LOG_TEXT)
  {
    var head := Decimal(n) + " ";
    forall i | i < |head| ensures !OccursAt(head + rest, LOG_TEXT, i) {
      NoStartIn(head, rest, i);
    }
    Shifted(head, rest, LOG_TEXT);
  }

  lemma SliceShifts(head: string, rest: string, k: nat, n: nat)
    requires k + n <= |rest|
    ensures (head + rest)[|head| + k..|head| + k + n] == rest[k..k + n]
  {
    assert (head + rest)[|head|..] == rest;
  }

  lemma Shifted(head: string, rest: string, word: string)
    requires forall i :: i < |head| ==> !OccursAt(head + rest, word, i)
    ensures Contains(head + rest, word) <==> Contains(rest, word)
  {
    var s := head + rest;
    var i, j := Index(s, word), Index(rest, word);
    if i >= 0 {
      SliceShifts(head, rest, i - |head|, |word|);
      assert OccursAt(rest, word, i - |head|);
    }
    if j >= 0 {
      SliceShifts(head, rest, j, |word|);
      assert OccursAt(s, word, |head| + j);
    }
  }

  // ---------------------------------------------------------------- promotion

  function Quiet(show: Rule -> string): Rule -> bool {
    r => !Contains(show(r), LOG_TEXT)
  }

  function WithChain(t: Table, rules: seq<Rule>): Table {
    t.(chains := t.chains[NET := rules])
  }

  function Promoted(t: Table, policyType: string, target: string, pr: Printer): Table {
    if policyType != NETWORK || NET !in t.chains then t
    else if target == "enforce" then WithChain(t, Filter(t.chains[NET], Quiet(pr.show)) + [DROP_ALL])
    else WithChain(t, WithoutFirst(t.chains[NET], DROP_ALL) + [LOG_ALL])
  }

  /** The mode on record; "audit" when there is none. */
  function PriorMode(modes: map<string, string>, policyType: string): string {
    if policyType in modes && TrimSpace(modes[policyType]) != "" then TrimSpace(modes[policyType]) else "audit"
  }

  function TargetMode(target: string): string {
    if target == "" then "enforce" else target
  }

  /** The chain when the rules from `k` on have been swept. */
  function Swept(rules: seq<Rule>, keep: Rule -> bool, k: nat): (r: seq<Rule>)
    requires k <= |rules|
    ensures |r| >= k
  {
    rules[..k] + Filter(rules[k..], keep)
  }

  /** The rule the sweep has come to at line `i`. */
  function Position(i: nat, header: nat, rules: nat): (k: nat)
    ensures k <= rules
  {
    if i < header then 0 else if i - header < rules then i - header else rules
  }

  function SweptTo(t: Table, pr: Printer, i: nat): Table
    requires NET in t.chains
  {
    WithChain(t, Swept(t.chains[NET], Quiet(pr.show), Position(i, |pr.header|, |t.chains[NET]|)))
  }

  lemma LineCases(t: Table, pr: Printer, i: nat)
    requires NET in t.chains && Listable(t, pr) && i < |ListedLines(t, pr)|
    ensures var lines, k := ListedLines(t, pr), i - |pr.header|;
            if i < |pr.header| then RuleNumber(FirstField(lines[i])) == None
            else if k < |t.chains[NET]| then lines[i] == Decimal(k + 1) + " " + pr.show(t.chains[NET][k])
            else lines[i] == ""
  {
    if i < |pr.header| {
      assert ListedLines(t, pr)[i] in pr.header;
    }
  }

  lemma SweepRule(rules: seq<Rule>, keep: Rule -> bool, k: nat)
    requires k < |rules|
    ensures var now := Swept(rules, keep, k + 1);
            Swept(rules, keep, k) == if keep(rules[k]) then now else now[..k] + now[k + 1..]
  {
    var tail := Filter(rules[k + 1..], keep);
    assert rules[k..][1..] == rules[k + 1..];
    assert rules[..k + 1] == rules[..k] + [rules[k]];
    assert Swept(rules, keep, k + 1) == rules[..k] + [rules[k]] + tail;
  }

  /** What the loop does at a line: delete the rule of its number if it shows LOG. */
  function AfterLine(t: Table, line: string): Table {
    if Contains(line, LOG_TEXT) && RuleNumber(FirstField(line)).Some? then
      DeleteNumber(t, NET, RuleNumber(FirstField(line)).value)
    else t
  }

  /** One line of the sweep. */
  lemma SweepOne(t: Table, pr: Printer, i: nat)
    requires NET in t.chains && Listable(t, pr) && i < |ListedLines(t, pr)|
    ensures SweptTo(t, pr, i) == AfterLine(SweptTo(t, pr, i + 1), ListedLines(t, pr)[i])
  {
    LineCases(t, pr, i);
    if i < |pr.header| {
      SweepStays(SweptTo(t, pr, i + 1), ListedLines(t, pr)[i]);
    } else if i - |pr.header| < |t.chains[NET]| {
      SweepLine(t, pr, i - |pr.header|);
    } else {
      SweepStays(SweptTo(t, pr, i + 1), "");
    }
  }

  lemma SweepStays(t: Table, line: string)
    requires RuleNumber(FirstField(line)) == None || line == ""
    ensures AfterLine(t, line) == t
  {
    if line == "" {
      assert Index("", LOG_TEXT) == -1;
    }
  }

  lemma SweepLine(t: Table, pr: Printer, k: nat)
    requires NET in t.chains && k < |t.chains[NET]|
    ensures var rules, keep := t.chains[NET], Quiet(pr.show);
            var line := Decimal(k + 1) + " " + pr.show(rules[k]);
            var now := WithChain(t, Swept(rules, keep, k + 1));
            WithChain(t, Swept(rules, keep, k)) == AfterLine(now, line)
  {
    var rules, keep := t.chains[NET], Quiet(pr.show);
    FirstFieldIsNumber(k + 1, pr.show(rules[k]));
    LogIsInTheRule(k + 1, pr.show(rules[k]));
    SweepRule(rules, keep, k);
    DeleteFromChain(t, Swept(rules, keep, k + 1), k);
  }

  lemma DeleteFromChain(t: Table, rules: seq<Rule>, k: nat)
    requires NET in t.chains && k < |rules|
    ensures DeleteNumber(WithChain(t, rules), NET, k + 1) == WithChain(t, rules[..k] + rules[k + 1..])
  {
    assert t.chains[NET := rules][NET := rules[..k] + rules[k + 1..]] == t.chains[NET := rules[..k] + rules[k + 1..]];
  }

  lemma NumberedAreLines(rules: seq<Rule>, show: Rule -> string, k: nat)
    requires k < |rules| && '\n' !in show(rules[k])
    ensures '\n' !in Numbered(rules, 1, show)[k]
  {
  }

  lemma ListingSplits(t: Table, pr: Printer)
    requires Listable(t, pr)
    ensures Split(Listing(t, pr), '\n') == ListedLines(t, pr)
  {
    if NET in t.chains {
      var rules := t.chains[NET];
      forall k | 0 <= k < |rules| ensures '\n' !in Numbered(rules, 1, pr.show)[k] {
        assert rules[k] in rules;
        NumberedAreLines(rules, pr.show, k);
      }
      assert forall l :: l in Numbered(rules, 1, pr.show) ==> '\n' !in l;
    }
    SplitOfJoin(ListedLines(t, pr), '\n');
  }

  /** The effect of all lines, the last one first. */
  function AfterLines(t: Table, lines: seq<string>): Table
    decreases |lines|
  {
    if lines == [] then t else AfterLines(AfterLine(t, lines[|lines| - 1]), lines[..|lines| - 1])
  }

  lemma {:induction false} SweepFrom(t: Table, pr: Printer, i: nat)
    requires NET in t.chains && Listable(t, pr) && i <= |ListedLines(t, pr)|
    ensures AfterLines(SweptTo(t, pr, i), ListedLines(t, pr)[..i]) == SweptTo(t, pr, 0)
  {
    var lines := ListedLines(t, pr);
    if i > 0 {
      SweepOne(t, pr, i - 1);
      AfterLinesStep(SweptTo(t, pr, i), lines, i);
      SweepFrom(t, pr, i - 1);
    }
  }

  lemma AfterLinesStep(t: Table, lines: seq<string>, i: nat)
    requires 0 < i <= |lines|
    ensures AfterLines(t, lines[..i]) == AfterLines(AfterLine(t, lines[i - 1]), lines[..i - 1])
  {
    assert lines[..i][..i - 1] == lines[..i - 1];
  }

  lemma SweepEnds(t: Table, pr: Printer)
    requires NET in t.chains
    ensures SweptTo(t, pr, |ListedLines(t, pr)|) == t
    ensures SweptTo(t, pr, 0) == WithChain(t, Filter(t.chains[NET], Quiet(pr.show)))
  {
    var rules := t.chains[NET];
    assert rules[..|rules|] + [] == rules && rules[0..] == rules;
    assert rules[..0] + Filter(rules, Quiet(pr.show)) == Filter(rules, Quiet(pr.show));
    assert t.chains[NET := rules] == t.chains;
  }

  function Unlogged(t: Table, pr: Printer): Table {
    if NET in t.chains then WithChain(t, Filter(t.chains[NET], Quiet(pr.show))) else t
  }

  /** Deleting by the numbers of one listing, last line first, removes exactly the rules
      whose line shows LOG and keeps the others in order. */
  lemma SweepFilters(t: Table, pr: Printer)
    requires Listable(t, pr)
    ensures AfterLines(t, Split(Listing(t, pr), '\n')) == Unlogged(t, pr)
  {
    var lines := ListedLines(t, pr);
    ListingSplits(t, pr);
    if NET in t.chains {
      SweepEnds(t, pr);
      SweepFrom(t, pr, |lines|);
      assert lines[..|lines|] == lines;
    } else {
      AfterLinesStep(t, [""], 1);
      assert [""][..1] == [""];
      assert Index("", LOG_TEXT) == -1;
    }
  }

  /** The loop of the promotion over the lines of the listing. */
  method DeleteLogged(host: Host, lines: seq<string>)
    modifies host
    ensures host.modes == old(host.modes)
    ensures host.table == AfterLines(old(host.table), lines)
  {
    var i := |lines|;
    assert lines[..|lines|] == lines;
    while i > 0
      invariant 0 <= i <= |lines|
      invariant host.modes == old(host.modes)
      invariant AfterLines(host.table, lines[..i]) == AfterLines(old(host.table), lines)
    {
      AfterLinesStep(host.table, lines, i);
      i := i - 1;
      DeleteListed(host, lines[i]);
    }
  }

  method DeleteListed(host: Host, line: string)
    modifies host
    ensures host.modes == old(host.modes) && host.table == AfterLine(old(host.table), line)
  {
    if Contains(line, LOG_TEXT) {
      var number := RuleNumber(FirstField(line));
      if number.Some? {
        host.table := DeleteNumber(host.table, NET, number.value);
      }
    }
  }

  method ListedChain(t: Table, pr: Printer) returns (lines: seq<string>)
    requires Listable(t, pr)
    ensures AfterLines(t, lines) == Unlogged(t, pr)
  {
    lines := Split(Listing(t, pr), '\n');
    SweepFilters(t, pr);
  }

  /** The firewall's part of a promotion. */
  method Retarget(host: Host, target: string, pr: Printer)
    requires Listable(host.table, pr)
    modifies host
    ensures host.modes == old(host.modes)
    ensures host.table == Promoted(old(host.table), NETWORK, target, pr)
  {
    if target == "enforce" {
      var lines := ListedChain(host.table, pr);
      DeleteLogged(host, lines);
      host.table := Append(host.table, NET, DROP_ALL);
    } else {
      host.table := Delete(host.table, NET, DROP_ALL);
      host.table := Append(host.table, NET, LOG_ALL);
    }
  }

  /** `PromoteEbpfPolicyExecute`. */
  method Promote(host: Host, policyType: string, targetMode: string, pr: Printer)
    returns (ok: bool, priorMode: string, snapshot: Option<Table>)
    requires Listable(host.table, pr)
    modifies host
    ensures ok <==> policyType != ""
    ensures !ok ==> host.table == old(host.table) && host.modes == old(host.modes) && snapshot == None
    ensures ok ==> host.table == Promoted(old(host.table), policyType, TargetMode(targetMode), pr)
    ensures ok ==> host.modes == old(host.modes)[policyType := TargetMode(targetMode)]
    ensures ok ==> priorMode == PriorMode(old(host.modes), policyType) && snapshot == Some(old(host.table))
  {
    if policyType == "" {
      return false, "", None;
    }
    var target := if targetMode == "" then "enforce" else targetMode;
    priorMode := "audit";
    if policyType in host.modes {
      var m := TrimSpace(host.modes[policyType]);
      if m != "" {
        priorMode := m;
      }
    }
    snapshot := Some(host.table);
    if policyType == NETWORK {
      Retarget(host, target, pr);
    }
    host.modes := host.modes[policyType := target];
    ok := true;
  }

  function RolledBackModes(modes: map<string, string>, policyType: string, priorMode: string): map<string, string> {
    if policyType != "" && priorMode != "" then modes[policyType := priorMode] else modes
  }

  /** `PromoteEbpfPolicyRollback`. */
  method Rollback(host: Host, policyType: string, priorMode: string, snapshot: Option<Table>)
    modifies host
    ensures host.table == if snapshot.Some? && policyType == NETWORK then snapshot.value else old(host.table)
    ensures host.modes == RolledBackModes(old(host.modes), policyType, priorMode)
  {
    if snapshot.Some? && policyType == NETWORK {
      host.table := snapshot.value;
    }
    if policyType != "" && priorMode != "" {
      host.modes := host.modes[policyType := priorMode];
    }
  }

  // ------------------------------------------------------------ what it means

  /** A line of the listing shows LOG for LOG rules and for no other. */
  predicate ShowsTargets(rules: seq<Rule>, pr: Printer) {
    forall r :: r in rules ==> (Contains(pr.show(r), LOG_TEXT) <==> r.target == LOG)
  }

  predicate NotLogging(r: Rule) {
    r.target != LOG
  }

  lemma {:induction false} FiltersAgree(rules: seq<Rule>, f: Rule -> bool, g: Rule -> bool)
    requires forall r :: r in rules ==> f(r) == g(r)
    ensures Filter(rules, f) == Filter(rules, g)
  {
    if rules != [] {
      FiltersAgree(rules[1..], f, g);
    }
  }

  /** Promotion turns a chain into its rules without the LOG ones, and a DROP, exactly when
      no other rule shows the word LOG, in a comment for instance. */
  lemma PromotedExactly(t: Table, pr: Printer)
    requires NET in t.chains
    ensures Rules(Promoted(t, NETWORK, "enforce", pr), NET) == Filter(t.chains[NET], NotLogging) + [DROP_ALL]
            <==> ShowsTargets(t.chains[NET], pr)
  {
    var rules := t.chains[NET];
    var byTarget, byText := Filter(rules, NotLogging), Filter(rules, Quiet(pr.show));
    if ShowsTargets(rules, pr) {
      FiltersAgree(rules, NotLogging, Quiet(pr.show));
    }
    assert (byTarget + [DROP_ALL])[..|byTarget|] == byTarget && (byText + [DROP_ALL])[..|byText|] == byText;
    if byTarget == byText {
      forall r | r in rules ensures Contains(pr.show(r), LOG_TEXT) <==> r.target == LOG {
        assert r in byTarget <==> r in byText;
      }
    }
  }

  /** Two tables that differ only in the chain, which leaves the packet open in both. */
  ghost predicate SameButOpen(w: World, t: Table, t': Table, p: Packet) {
    && Plain(Rules(t, NET)) && Walk(w, t, Rules(t, NET), p, 0) == Continued
    && Plain(Rules(t', NET)) && Walk(w, t', Rules(t', NET), p, 0) == Continued
    && forall c :: c != NET ==> Rules(t, c) == Rules(t', c)
  }

  lemma {:induction false} WalkIgnoresOpen(w: World, t: Table, t': Table, rules: seq<Rule>, p: Packet, depth: nat)
    requires SameButOpen(w, t, t', p)
    ensures Walk(w, t, rules, p, depth) == Walk(w, t', rules, p, depth)
    decreases depth, |rules|
  {
    if rules != [] {
      WalkIgnoresOpen(w, t, t', rules[1..], p, depth);
      if rules[0].target.Jump? && depth > 0 {
        var c := rules[0].target.chain;
        if c == NET {
          PlainWalk(w, t, t, Rules(t, NET), p, depth - 1, 0);
          PlainWalk(w, t', t', Rules(t', NET), p, depth - 1, 0);
        } else {
          WalkIgnoresOpen(w, t, t', Rules(t, c), p, depth - 1);
        }
      }
    }
  }

  function DecidedBy(o: Outcome, otherwise: Policy): Policy {
    if o == Accepted then AcceptAll else if o == Dropped then DropAll else otherwise
  }

  lemma ChainDecides(w: World, t: Table, p: Packet, depth: nat)
    requires depth > 0 && Rules(t, OUTPUT) != [] && Rules(t, OUTPUT)[0] == TO_NET
    ensures Walk(w, t, Rules(t, NET), p, depth - 1) == Accepted ==> Verdict(w, t, OUTPUT, p, depth) == AcceptAll
    ensures Walk(w, t, Rules(t, NET), p, depth - 1) == Dropped ==> Verdict(w, t, OUTPUT, p, depth) == DropAll
  {
  }

  /** A jump to the chain in front of OUTPUT: the chain decides first. */
  lemma FrontDecides(w: World, t: Table, p: Packet, depth: nat)
    requires Plain(Rules(t, NET)) && depth > 0
    requires Rules(t, OUTPUT) != [] && Rules(t, OUTPUT)[0] == TO_NET
    ensures Verdict(w, t, OUTPUT, p, depth)
            == DecidedBy(Walk(w, t, Rules(t, NET), p, 0), Verdict(w, Emptied(t), OUTPUT, p, depth))
  {
    PlainWalk(w, t, t, Rules(t, NET), p, depth - 1, 0);
    ChainDecides(w, t, p, depth);
    if Walk(w, t, Rules(t, NET), p, 0) == Continued {
      assert Rules(Emptied(t), NET) == [];
      assert SameButOpen(w, t, Emptied(t), p);
      WalkIgnoresOpen(w, t, Emptied(t), Rules(t, OUTPUT), p, depth);
    }
  }

  lemma WalkFirst(w: World, t: Table, r: Rule, rest: seq<Rule>, p: Packet, depth: nat)
    requires !r.target.Jump?
    ensures Walk(w, t, [r] + rest, p, depth)
            == if r.target == LOG || !Matches(w, r.match_, p) then Walk(w, t, rest, p, depth)
               else if r.target == ACCEPT then Accepted else if r.target == DROP then Dropped else Returned
  {
    assert ([r] + rest)[1..] == rest;
  }

  /** Without its LOG rules a list of deciding and logging rules walks as before. */
  lemma {:induction false} WalkWithoutLogs(w: World, t: Table, t': Table, rules: seq<Rule>, p: Packet, depth: nat)
    requires Plain(rules)
    ensures Walk(w, t', Filter(rules, NotLogging), p, depth) == Walk(w, t, rules, p, 0) != Returned
  {
    if rules != [] {
      var r, rest := rules[0], rules[1..];
      assert rules == [r] + rest && r in rules;
      WalkWithoutLogs(w, t, t', rest, p, depth);
      WalkFirst(w, t, r, rest, p, 0);
      WalkFirst(w, t', r, Filter(rest, NotLogging), p, depth);
      assert Filter(rules, NotLogging) == if r.target == LOG then Filter(rest, NotLogging) else [r] + Filter(rest, NotLogging);
    }
  }

  /** The chain a promotion leaves. */
  lemma PromotedChain(w: World, t: Table, pr: Printer, p: Packet, depth: nat)
    requires NET in t.chains && Plain(Rules(t, NET)) && ShowsTargets(Rules(t, NET), pr)
    ensures var t', kept := Promoted(t, NETWORK, "enforce", pr), Filter(Rules(t, NET), NotLogging);
            && Rules(t', NET) == kept + [DROP_ALL] && Rules(t', OUTPUT) == Rules(t, OUTPUT)
            && Walk(w, t', kept, p, depth) == Walk(w, t, Rules(t, NET), p, 0) != Returned
  {
    FiltersAgree(Rules(t, NET), NotLogging, Quiet(pr.show));
    WalkWithoutLogs(w, t, Promoted(t, NETWORK, "enforce", pr), Rules(t, NET), p, depth);
  }

  lemma PromotedDecides(w: World, t: Table, pr: Printer, p: Packet, depth: nat)
    requires NET in t.chains && Plain(Rules(t, NET)) && ShowsTargets(Rules(t, NET), pr)
    ensures var t' := Promoted(t, NETWORK, "enforce", pr);
            && Rules(t', OUTPUT) == Rules(t, OUTPUT)
            && Walk(w, t', Rules(t', NET), p, depth) == if Walk(w, t, Rules(t, NET), p, 0) == Accepted then Accepted else Dropped
  {
    PromotedChain(w, t, pr, p, depth);
    var t' := Promoted(t, NETWORK, "enforce", pr);
    WalkAppend(w, t', Filter(Rules(t, NET), NotLogging), [DROP_ALL], p, depth);
    WalkOne(w, t', DROP_ALL, p, depth);
  }

  /** What a packet meets after a promotion, whatever was in the chain: it is accepted
      exactly when the rules of the chain accepted it, and nothing reaches the rest of OUTPUT. */
  lemma PromotedVerdict(w: World, t: Table, pr: Printer, p: Packet, depth: nat)
    requires NET in t.chains && Plain(Rules(t, NET)) && ShowsTargets(Rules(t, NET), pr) && depth > 0
    requires Rules(t, OUTPUT) != [] && Rules(t, OUTPUT)[0] == TO_NET
    ensures Verdict(w, Promoted(t, NETWORK, "enforce", pr), OUTPUT, p, depth) == AcceptAll
            <==> Walk(w, t, Rules(t, NET), p, 0) == Accepted
  {
    PromotedDecides(w, t, pr, p, depth - 1);
    ChainDecides(w, Promoted(t, NETWORK, "enforce", pr), p, depth);
  }

  /** Promotion leaves a packet's verdict alone exactly when the chain decides about it or
      the rest of OUTPUT drops it anyway. */
  lemma PromotionKeepsExactly(w: World, t: Table, pr: Printer, p: Packet, depth: nat)
    requires NET in t.chains && Plain(Rules(t, NET)) && ShowsTargets(Rules(t, NET), pr) && depth > 0
    requires Rules(t, OUTPUT) != [] && Rules(t, OUTPUT)[0] == TO_NET
    ensures Verdict(w, Promoted(t, NETWORK, "enforce", pr), OUTPUT, p, depth) == Verdict(w, t, OUTPUT, p, depth)
            <==> Walk(w, t, Rules(t, NET), p, 0) != Continued || Verdict(w, Emptied(t), OUTPUT, p, depth) == DropAll
  {
    PromotedVerdict(w, t, pr, p, depth);
    FrontDecides(w, t, p, depth);
    PlainWalk(w, t, t, Rules(t, NET), p, 0, 0);
  }

  /** The chain after a run that configures it. */
  lemma ConfiguredChain(read: Reader, w: World, t: Table, flows: seq<Flow>, mode: Mode, p: Packet)
    requires OUTPUT in t.chains && Plain(Rules(t, NET))
    ensures var t' := Configured(read, t, flows, mode);
            && NET in t'.chains && Rules(t', NET) == Rules(t, NET) + NewRules(read, flows, mode) && Plain(Rules(t', NET))
            && Rules(t', OUTPUT) == [TO_NET] + Rules(t, OUTPUT)
            && Walk(w, t', Rules(t', NET), p, 0)
               == if Walk(w, t, Rules(t, NET), p, 0) != Continued then Walk(w, t, Rules(t, NET), p, 0)
                  else Walk(w, t', NewRules(read, flows, mode), p, 0)
  {
    var t' := Configured(read, t, flows, mode);
    CompiledIsPlain(read, flows, mode);
    WalkAppend(w, t', Rules(t, NET), NewRules(read, flows, mode), p, 0);
    PlainWalk(w, t, t', Rules(t, NET), p, 0, 0);
  }

  lemma NewRulesDecide(read: Reader, w: World, t: Table, flows: seq<Flow>, mode: Mode, p: Packet)
    ensures Walk(w, t, NewRules(read, flows, mode), p, 0)
            == if mode == Audit then Continued else if InProfile(read, w, flows, p) then Accepted else Dropped
  {
    if mode == Audit {
      CompiledLogs(read, flows);
      LogsContinue(w, t, NewRules(read, flows, mode), p, 0);
    } else {
      EnforcingRulesDecide(read, w, t, flows, p, 0);
    }
  }

  /** Configured in either mode on any plain chain and promoted, the profile decides about a
      packet exactly when the rules from before decide alike, or when they leave the packet
      open and the profile was enforced or does not hold the packet: auditing alone gives it
      no rule that accepts. */
  lemma PromotionEnforcesExactly(read: Reader, w: World, t: Table, flows: seq<Flow>, mode: Mode, pr: Printer, p: Packet, depth: nat)
    requires OUTPUT in t.chains && Plain(Rules(t, NET)) && depth > 0
    requires ShowsTargets(Rules(Configured(read, t, flows, mode), NET), pr)
    ensures var before := Walk(w, t, Rules(t, NET), p, 0);
            Verdict(w, Promoted(Configured(read, t, flows, mode), NETWORK, "enforce", pr), OUTPUT, p, depth) == Allows(read, w, flows, p)
            <==> if before == Continued then mode == Enforce || !InProfile(read, w, flows, p)
                 else (before == Accepted <==> InProfile(read, w, flows, p))
  {
    var t' := Configured(read, t, flows, mode);
    ConfiguredChain(read, w, t, flows, mode, p);
    NewRulesDecide(read, w, t', flows, mode, p);
    PromotedVerdict(w, t', pr, p, depth);
  }

  /** Promoting a profile that was only audited does not enforce it: every packet that
      leaves is dropped, those of the profile too. */
  lemma PromotionDropsEverything(read: Reader, w: World, t: Table, flows: seq<Flow>, pr: Printer, p: Packet, depth: nat)
    requires OUTPUT in t.chains && OnlyLogs(Rules(t, NET)) && depth > 0
    requires ShowsTargets(Rules(Configured(read, t, flows, Audit), NET), pr)
    ensures Verdict(w, Promoted(Configured(read, t, flows, Audit), NETWORK, "enforce", pr), OUTPUT, p, depth) == DropAll
  {
    var t' := Configured(read, t, flows, Audit);
    LogsContinue(w, t, Rules(t, NET), p, 0);
    ConfiguredChain(read, w, t, flows, Audit, p);
    NewRulesDecide(read, w, t', flows, Audit, p);
    PromotedVerdict(w, t', pr, p, depth);
  }

  /** Promoting a profile that is enforced changes no verdict, whatever the chain held before
      it was; if that only logged, the profile goes on deciding. */
  lemma PromotionKeepsEnforced(read: Reader, w: World, t: Table, flows: seq<Flow>, pr: Printer, p: Packet, depth: nat)
    requires OUTPUT in t.chains && Plain(Rules(t, NET)) && depth > 0
    requires ShowsTargets(Rules(Configured(read, t, flows, Enforce), NET), pr)
    ensures var t' := Configured(read, t, flows, Enforce);
            && Verdict(w, Promoted(t', NETWORK, "enforce", pr), OUTPUT, p, depth) == Verdict(w, t', OUTPUT, p, depth)
            && (OnlyLogs(Rules(t, NET)) ==> Verdict(w, t', OUTPUT, p, depth) == Allows(read, w, flows, p))
  {
    var t' := Configured(read, t, flows, Enforce);
    ConfiguredChain(read, w, t, flows, Enforce, p);
    NewRulesDecide(read, w, t', flows, Enforce, p);
    PromotionKeepsExactly(w, t', pr, p, depth);
    if OnlyLogs(Rules(t, NET)) {
      EnforceMeansProfile(read, w, t, flows, p, depth);
    }
  }

  // -------------------------------------------------------------- back to audit

  lemma {:induction false} WithoutFirstKeeps(rules: seq<Rule>, r: Rule)
    ensures forall x :: x in WithoutFirst(rules, r) ==> x in rules
  {
    if rules != [] {
      WithoutFirstKeeps(rules[1..], r);
    }
  }

  /** The chain without the DROP that going back to audit deletes. */
  function Undropped(t: Table): seq<Rule> {
    WithoutFirst(Rules(t, NET), DROP_ALL)
  }

  lemma DemotedChain(w: World, t: Table, pr: Printer, p: Packet, depth: nat)
    requires NET in t.chains && Plain(Rules(t, NET))
    ensures var t' := Promoted(t, NETWORK, "audit", pr);
            && Plain(Rules(t', NET)) && (forall c :: c != NET ==> Rules(t', c) == Rules(t, c))
            && t'.policies == t.policies
            && Walk(w, t', Rules(t', NET), p, depth) == Walk(w, t, Undropped(t), p, 0) != Returned
  {
    var t', left := Promoted(t, NETWORK, "audit", pr), Undropped(t);
    WithoutFirstKeeps(Rules(t, NET), DROP_ALL);
    assert Rules(t', NET) == left + [LOG_ALL];
    WalkAppend(w, t', left, [LOG_ALL], p, depth);
    LogsContinue(w, t', [LOG_ALL], p, depth);
    PlainWalk(w, t', t, left, p, depth, 0);
  }

  /** Back in audit the chain ends in a rule that logs whatever gets there. */
  lemma DemotionLogs(w: World, t: Table, pr: Printer, p: Packet)
    requires NET in t.chains
    ensures var rules := Rules(Promoted(t, NETWORK, "audit", pr), NET);
            HitsLog(w, rules, p) && rules[|rules| - 1].target == LOG && Matches(w, rules[|rules| - 1].match_, p)
  {
    var rules := Rules(Promoted(t, NETWORK, "audit", pr), NET);
    assert rules == WithoutFirst(t.chains[NET], DROP_ALL) + [LOG_ALL];
    assert rules[|rules| - 1] == LOG_ALL && LOG_ALL in rules;
  }

  /** What a packet meets once the chain is back in audit: the rules left over decide, and
      where they do not, the rest of OUTPUT does, as if the chain were empty. */
  lemma DemotedVerdict(w: World, t: Table, pr: Printer, p: Packet, depth: nat)
    requires NET in t.chains && Plain(Rules(t, NET)) && depth > 0
    requires Rules(t, OUTPUT) != [] && Rules(t, OUTPUT)[0] == TO_NET
    ensures Verdict(w, Promoted(t, NETWORK, "audit", pr), OUTPUT, p, depth)
            == DecidedBy(Walk(w, t, Undropped(t), p, 0), Verdict(w, Emptied(t), OUTPUT, p, depth))
  {
    var t' := Promoted(t, NETWORK, "audit", pr);
    DemotedChain(w, t, pr, p, 0);
    FrontDecides(w, t', p, depth);
    assert Emptied(t').chains == Emptied(t).chains;
  }

  /** For any chain of deciding and logging rules: going back to audit stops enforcing, that
      is, treats a packet as if the chain were empty, exactly when the rules without their
      first DROP leave the packet open or decide as the rest of OUTPUT does. */
  lemma DemotionStopsExactly(w: World, t: Table, pr: Printer, p: Packet, depth: nat)
    requires NET in t.chains && Plain(Rules(t, NET)) && depth > 0
    requires Rules(t, OUTPUT) != [] && Rules(t, OUTPUT)[0] == TO_NET
    ensures var left, open_ := Walk(w, t, Undropped(t), p, 0), Verdict(w, Emptied(t), OUTPUT, p, depth);
            Verdict(w, Promoted(t, NETWORK, "audit", pr), OUTPUT, p, depth) == open_
            <==> left == Continued || (left == Accepted <==> open_ == AcceptAll)
  {
    DemotedVerdict(w, t, pr, p, depth);
    WithoutFirstKeeps(Rules(t, NET), DROP_ALL);
    PlainWalk(w, t, t, Undropped(t), p, 0, 0);
  }

  /** With the chain empty the table is as before the agent put its jump in front of OUTPUT. */
  lemma EmptiedIsBefore(w: World, t: Table, t': Table, p: Packet, depth: nat)
    requires OnlyLogs(Rules(t, NET)) && t'.policies == t.policies
    requires Rules(t', OUTPUT) == [TO_NET] + Rules(t, OUTPUT)
    requires forall c :: c != OUTPUT && c != NET ==> Rules(t', c) == Rules(t, c)
    ensures Verdict(w, Emptied(t'), OUTPUT, p, depth) == Verdict(w, t, OUTPUT, p, depth)
  {
    var before, after := Emptied(t), Emptied(t');
    assert Rules(before, NET) == [] && Rules(after, NET) == [];
    assert SameButLogs(t, before, NET);
    WalkIgnoresLogs(w, t, before, NET, Rules(t, OUTPUT), p, depth);
    LeadingJumpIsIdle(w, before, after, Rules(t, OUTPUT), p, depth);
    IdleJumpFirst(w, after, Rules(t, OUTPUT), p, depth);
  }

  lemma {:induction false} WithoutFirstDrop(a: seq<Rule>, b: seq<Rule>)
    requires DROP_ALL !in a
    ensures WithoutFirst(a + ([DROP_ALL] + b), DROP_ALL) == a + b
  {
    if a == [] {
      assert a + ([DROP_ALL] + b) == [DROP_ALL] + b;
      assert ([DROP_ALL] + b)[1..] == b && a + b == b;
    } else {
      assert (a + ([DROP_ALL] + b))[1..] == a[1..] + ([DROP_ALL] + b);
      WithoutFirstDrop(a[1..], b);
    }
  }

  lemma WithoutLastDrop(a: seq<Rule>)
    requires DROP_ALL !in a
    ensures WithoutFirst(a + [DROP_ALL], DROP_ALL) == a
  {
    WithoutFirstDrop(a, []);
    assert [DROP_ALL] + [] == [DROP_ALL] && a + [] == a;
  }

  lemma {:induction false} CompiledAccepting(read: Reader, flows: seq<Flow>)
    ensures forall r :: r in Compiled(read, flows, Enforce) ==> r.target == ACCEPT
  {
    if flows != [] {
      CompiledAccepting(read, flows[..|flows| - 1]);
    }
  }

  /** What is left of an enforced profile without its DROP. */
  lemma EnforcedUndropped(read: Reader, w: World, t: Table, flows: seq<Flow>, p: Packet)
    requires OUTPUT in t.chains && OnlyLogs(Rules(t, NET))
    ensures var t' := Configured(read, t, flows, Enforce);
            Walk(w, t', Undropped(t'), p, 0) == if InProfile(read, w, flows, p) then Accepted else Continued
  {
    var t', logs, c := Configured(read, t, flows, Enforce), Rules(t, NET), Compiled(read, flows, Enforce);
    ConfiguredChain(read, w, t, flows, Enforce, p);
    CompiledAccepting(read, flows);
    assert logs + (c + [DROP_ALL]) == (logs + c) + [DROP_ALL];
    WithoutLastDrop(logs + c);
    LogsContinue(w, t', logs, p, 0);
    WalkAppend(w, t', logs, c, p, 0);
    CompiledAccepts(read, w, t', flows, p, 0);
  }

  /** Enforced once and taken back to audit: the rest of OUTPUT decides again, but not about
      the packets of the profile, whose ACCEPT rules stay in front of it. */
  lemma DemotionOfEnforced(read: Reader, w: World, t: Table, flows: seq<Flow>, pr: Printer, p: Packet, depth: nat)
    requires OUTPUT in t.chains && OnlyLogs(Rules(t, NET)) && depth > 0
    ensures Verdict(w, Promoted(Configured(read, t, flows, Enforce), NETWORK, "audit", pr), OUTPUT, p, depth)
            == if InProfile(read, w, flows, p) then AcceptAll else Verdict(w, t, OUTPUT, p, depth)
  {
    var t' := Configured(read, t, flows, Enforce);
    ConfiguredChain(read, w, t, flows, Enforce, p);
    EnforcedUndropped(read, w, t, flows, p);
    DemotedVerdict(w, t', pr, p, depth);
    EmptiedIsBefore(w, t, t', p, depth);
  }

  lemma FirstRule(r: Rule, rest: seq<Rule>)
    ensures Filter([r] + rest, NotLogging) == if NotLogging(r) then [r] + Filter(rest, NotLogging) else Filter(rest, NotLogging)
    ensures WithoutFirst([r] + rest, DROP_ALL) == if r == DROP_ALL then rest else [r] + WithoutFirst(rest, DROP_ALL)
  {
    assert ([r] + rest)[1..] == rest;
    assert [] + Filter(rest, NotLogging) == Filter(rest, NotLogging);
  }

  lemma {:induction false} WithoutFirstOfKept(rules: seq<Rule>)
    ensures WithoutFirst(Filter(rules, NotLogging), DROP_ALL) == Filter(WithoutFirst(rules, DROP_ALL), NotLogging)
  {
    if rules != [] {
      var r, rest := rules[0], rules[1..];
      WithoutFirstOfKept(rest);
      assert rules == [r] + rest;
      FirstRule(r, rest);
      FirstRule(r, Filter(rest, NotLogging));
      FirstRule(r, WithoutFirst(rest, DROP_ALL));
    }
  }

  lemma {:induction false} WithoutFirstInFront(a: seq<Rule>, b: seq<Rule>)
    requires DROP_ALL in a
    ensures WithoutFirst(a + b, DROP_ALL) == WithoutFirst(a, DROP_ALL) + b
  {
    assert (a + b)[1..] == a[1..] + b;
    if a[0] != DROP_ALL {
      WithoutFirstInFront(a[1..], b);
    }
  }

  lemma {:induction false} DropDecides(w: World, t: Table, rules: seq<Rule>, p: Packet)
    requires Plain(rules) && DROP_ALL in rules
    ensures Walk(w, t, rules, p, 0) == Accepted || Walk(w, t, rules, p, 0) == Dropped
  {
    assert rules[0] in rules;
    if rules[0] != DROP_ALL {
      DropDecides(w, t, rules[1..], p);
    }
  }

  /** Of a promoted chain the way back leaves the rules without LOGs and without their first
      DROP, closed by the DROP of the promotion if there was another. */
  lemma PromotedUndropped(w: World, t: Table, pr: Printer, p: Packet)
    requires NET in t.chains && Plain(Rules(t, NET)) && ShowsTargets(Rules(t, NET), pr)
    ensures var promoted, left := Promoted(t, NETWORK, "enforce", pr), Walk(w, t, Undropped(t), p, 0);
            Walk(w, promoted, Undropped(promoted), p, 0)
            == if DROP_ALL in Rules(t, NET) && left == Continued then Dropped else left
  {
    var promoted, rules := Promoted(t, NETWORK, "enforce", pr), Rules(t, NET);
    var kept, left := Filter(rules, NotLogging), Filter(Undropped(t), NotLogging);
    PromotedChain(w, t, pr, p, 0);
    WithoutFirstKeeps(rules, DROP_ALL);
    WalkWithoutLogs(w, t, promoted, Undropped(t), p, 0);
    WithoutFirstOfKept(rules);
    if DROP_ALL in rules {
      WithoutFirstInFront(kept, [DROP_ALL]);
      WalkAppend(w, promoted, left, [DROP_ALL], p, 0);
      WalkOne(w, promoted, DROP_ALL, p, 0);
    } else {
      WithoutLastDrop(kept);
      NothingToDrop(rules);
    }
  }

  lemma {:induction false} NothingToDrop(rules: seq<Rule>)
    requires DROP_ALL !in rules
    ensures WithoutFirst(rules, DROP_ALL) == rules
  {
    if rules != [] {
      NothingToDrop(rules[1..]);
    }
  }

  lemma PromotedAndBack(w: World, t: Table, pr: Printer, p: Packet, depth: nat)
    requires NET in t.chains && Plain(Rules(t, NET)) && ShowsTargets(Rules(t, NET), pr) && depth > 0
    requires Rules(t, OUTPUT) != [] && Rules(t, OUTPUT)[0] == TO_NET
    ensures var left := Walk(w, t, Undropped(t), p, 0);
            Verdict(w, Promoted(Promoted(t, NETWORK, "enforce", pr), NETWORK, "audit", pr), OUTPUT, p, depth)
            == DecidedBy(if DROP_ALL in Rules(t, NET) && left == Continued then Dropped else left, Verdict(w, Emptied(t), OUTPUT, p, depth))
  {
    var promoted := Promoted(t, NETWORK, "enforce", pr);
    PromotedIsPlain(t, pr);
    PromotedUndropped(w, t, pr, p);
    DemotedVerdict(w, promoted, pr, p, depth);
  }

  lemma PromotedIsPlain(t: Table, pr: Printer)
    requires NET in t.chains && Plain(Rules(t, NET))
    ensures var promoted := Promoted(t, NETWORK, "enforce", pr);
            && NET in promoted.chains && Plain(Rules(promoted, NET)) && Rules(promoted, OUTPUT) == Rules(t, OUTPUT)
            && Emptied(promoted) == Emptied(t)
  {
    assert Emptied(Promoted(t, NETWORK, "enforce", pr)).chains == Emptied(t).chains;
  }

  /** For every plain chain: promoted and taken back to audit, a packet's verdict is as before
      exactly when the chain held no DROP for all, or does not need its first one: the rules
      behind it accept nothing new. */
  lemma DemotionUndoesPromotionExactly(w: World, t: Table, pr: Printer, p: Packet, depth: nat)
    requires NET in t.chains && Plain(Rules(t, NET)) && ShowsTargets(Rules(t, NET), pr) && depth > 0
    requires Rules(t, OUTPUT) != [] && Rules(t, OUTPUT)[0] == TO_NET
    ensures Verdict(w, Promoted(Promoted(t, NETWORK, "enforce", pr), NETWORK, "audit", pr), OUTPUT, p, depth)
            == Verdict(w, t, OUTPUT, p, depth)
            <==> DROP_ALL !in Rules(t, NET) || (Walk(w, t, Undropped(t), p, 0) == Accepted <==> Walk(w, t, Rules(t, NET), p, 0) == Accepted)
  {
    PromotedAndBack(w, t, pr, p, depth);
    FrontDecides(w, t, p, depth);
    if DROP_ALL in Rules(t, NET) {
      DropDecides(w, t, Rules(t, NET), p);
      WithoutFirstKeeps(Rules(t, NET), DROP_ALL);
      PlainWalk(w, t, t, Undropped(t), p, 0, 0);
    } else {
      NothingToDrop(Rules(t, NET));
    }
  }

  /** Enforced, promoted and taken back to audit: one of two DROPs is left, and the profile
      keeps being enforced while its mode reads audit. */
  lemma DemotionKeepsEnforcing(read: Reader, w: World, t: Table, flows: seq<Flow>, pr: Printer, p: Packet, depth: nat)
    requires OUTPUT in t.chains && OnlyLogs(Rules(t, NET)) && depth > 0
    requires ShowsTargets(Rules(Configured(read, t, flows, Enforce), NET), pr)
    ensures var promoted := Promoted(Configured(read, t, flows, Enforce), NETWORK, "enforce", pr);
            Verdict(w, Promoted(promoted, NETWORK, "audit", pr), OUTPUT, p, depth) == Allows(read, w, flows, p)
  {
    var t' := Configured(read, t, flows, Enforce);
    LogsContinue(w, t, Rules(t, NET), p, 0);
    ConfiguredChain(read, w, t, flows, Enforce, p);
    NewRulesDecide(read, w, t', flows, Enforce, p);
    EnforcedUndropped(read, w, t, flows, p);
    EnforceMeansProfile(read, w, t, flows, p, depth);
    DemotionUndoesPromotionExactly(w, t', pr, p, depth);
  }

  /** Audited, promoted and taken back to audit: nothing is stopped any more. */
  lemma DemotionOfAudited(read: Reader, w: World, t: Table, flows: seq<Flow>, pr: Printer, p: Packet, depth: nat)
    requires OUTPUT in t.chains && OnlyLogs(Rules(t, NET)) && depth > 0
    requires ShowsTargets(Rules(Configured(read, t, flows, Audit), NET), pr)
    ensures var promoted := Promoted(Configured(read, t, flows, Audit), NETWORK, "enforce", pr);
            Verdict(w, Promoted(promoted, NETWORK, "audit", pr), OUTPUT, p, depth) == Verdict(w, t, OUTPUT, p, depth)
  {
    ConfiguredChain(read, w, t, flows, Audit, p);
    AuditChangesNothing(read, w, t, flows, OUTPUT, p, depth);
    DemotionUndoesPromotionExactly(w, Configured(read, t, flows, Audit), pr, p, depth);
  }

  /** Rolling a promotion back restores the mode file exactly when it held a trimmed mode;
      the mode it is read as always comes back. */
  lemma ModeRestoredExactly(modes: map<string, string>, policyType: string, target: string)
    requires policyType != ""
    ensures var after := RolledBackModes(modes[policyType := target], policyType, PriorMode(modes, policyType));
            && PriorMode(after, policyType) == PriorMode(modes, policyType)
            && (after == modes <==> policyType in modes && modes[policyType] != "" && Trimmed(modes[policyType]))
  {
    var prior := PriorMode(modes, policyType);
    var after := RolledBackModes(modes[policyType := target], policyType, prior);
    assert after == modes[policyType := prior];
    assert Trimmed("audit");
    if policyType in modes && modes[policyType] == prior {
      assert modes[policyType := prior] == modes;
    }
    if after == modes {
      assert policyType in after;
      assert TrimSpace("") == "";
    }
  }
}
