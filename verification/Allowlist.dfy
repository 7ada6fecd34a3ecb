/**
 The tunnel's allowlist: `host:port` entries, parsed into rules that every OPEN is
 checked against.  Reading an address from text belongs to Go's `netip`, so
 a parser for single addresses is a parameter; everything built on it is modelled.
 */
module Allowlist {
  import opened Text
  import opened Frame
  import opened Bits

  /** Four bytes for dotted text, sixteen for colon text. */
  type Address = b: seq<byte> | |b| == 4 || |b| == 16 witness [0, 0, 0, 0]
  type AddressParser = string -> Option<Address>

  // --------------------------------------------------------------- addresses

  const V4_PREFIX: seq<byte> := [0, 0, 0, 0, 0, 0, 0, 0, 0, 0, 0xFF, 0xFF]

  predicate IsMapped(b: Address) {
    |b| == 16 && b[..12] == V4_PREFIX
  }

  /** The form in which `Equal` and `Contains` compare: `To4` when there is one. */
  function Canonical(b: Address): (r: Address)
    ensures !IsMapped(r)
  {
    if IsMapped(b) then b[12..] else b
  }

  function ParseIP(parse: AddressParser, s: string): Option<Address> {
    match parse(s)
    case None => None
    case Some(b) => Some(Canonical(b))
  }

  datatype Net = Net(ip: Address, mask: seq<byte>)

  /** `net.ParseCIDR`: an address, the first slash, and a run of digits within the width. */
  function ParseCIDR(parse: AddressParser, s: string): (r: Option<Net>)
    ensures r.Some? ==> |r.value.mask| == |r.value.ip|
  {
    var i := IndexChar(s, '/');
    if i < 0 then None
    else
      var addr, numeral := parse(s[..i]), s[i + 1..];
      if addr.None? || numeral == "" || !AllDigits(numeral) || DigitsValue(numeral) > 8 * |addr.value| then None
      else
        var m := PrefixMask(DigitsValue(numeral), |addr.value|);
        Some(Net(Masked(addr.value, m), m))
  }

  /** `IPNet.Contains`, which first shortens a mapped network to its last four bytes. */
  predicate NetContains(net: Net, dial: Address)
    requires |net.mask| == |net.ip|
  {
    if IsMapped(net.ip) then |dial| == 4 && SameUnderMask(net.ip[12..], dial, net.mask[12..])
    else |dial| == |net.ip| && SameUnderMask(net.ip, dial, net.mask)
  }

  // ------------------------------------------------------------------- rules

  /** `portMin` and `portMax` are meaningful unless `portAny`; a rule whose `cidr` and
      `ip` are both absent is a hostname rule. */
  datatype Rule = Rule(cidr: Option<Net>, ip: Option<Address>, hostname: string, portMin: int, portMax: int, portAny: bool)

  ghost predicate ValidRule(r: Rule) {
    r.cidr.Some? ==> |r.cidr.value.mask| == |r.cidr.value.ip|
  }

  datatype HostPart = HostPart(cidr: Option<Net>, ip: Option<Address>, hostname: string)

  function ParseHostPart(parse: AddressParser, h: string): Option<HostPart> {
    if '/' in h then
      var net := ParseCIDR(parse, h);
      if net.None? then None else Some(HostPart(net, None, ""))
    else if ParseIP(parse, h).Some? then Some(HostPart(None, ParseIP(parse, h), ""))
    else Some(HostPart(None, None, ToLower(h)))
  }

  datatype PortPart = AnyPort | Ports(lo: int, hi: int)

  function ParsePortPart(p: string): Option<PortPart> {
    if p == "*" then Some(AnyPort)
    else
      var dash := IndexChar(p, '-');
      if dash >= 0 then
        var lo, hi := Atoi(p[..dash]), Atoi(p[dash + 1..]);
        if lo.None? || hi.None? || lo.value < 1 || hi.value > 65535 || lo.value > hi.value then None
        else Some(Ports(lo.value, hi.value))
      else
        var n := Atoi(p);
        if n.None? || n.value < 1 || n.value > 65535 then None else Some(Ports(n.value, n.value))
  }

  function RuleFrom(h: HostPart, p: PortPart): Rule {
    match p
    case AnyPort => Rule(h.cidr, h.ip, h.hostname, 0, 0, true)
    case Ports(lo, hi) => Rule(h.cidr, h.ip, h.hostname, lo, hi, false)
  }

  function ParseEntry(parse: AddressParser, e: string): Option<Rule> {
    var i := LastIndexChar(e, ':');
    if i < 0 then None
    else
      var h, p := ParseHostPart(parse, e[..i]), ParsePortPart(e[i + 1..]);
      if h.None? || p.None? then None else Some(RuleFrom(h.value, p.value))
  }

  function WithRule(rules: Option<seq<Rule>>, r: Option<Rule>): Option<seq<Rule>> {
    if rules.Some? && r.Some? then Some(rules.value + [r.value]) else None
  }

  /** One bad entry makes the whole list an error. */
  function ParseAll(parse: AddressParser, entries: seq<string>): Option<seq<Rule>> {
    if entries == [] then Some([])
    else WithRule(ParseAll(parse, entries[..|entries| - 1]), ParseEntry(parse, entries[|entries| - 1]))
  }

  lemma ParseAllNext(parse: AddressParser, entries: seq<string>, i: nat)
    requires i < |entries|
    ensures ParseAll(parse, entries[..i + 1]) == WithRule(ParseAll(parse, entries[..i]), ParseEntry(parse, entries[i]))
  {
    assert entries[..i + 1][..i] == entries[..i];
  }

  lemma {:induction false} ErrorStays(parse: AddressParser, entries: seq<string>, i: nat)
    requires i <= |entries| && ParseAll(parse, entries[..i]) == None
    ensures ParseAll(parse, entries) == None
    decreases |entries| - i
  {
    if i < |entries| {
      ParseAllNext(parse, entries, i);
      ErrorStays(parse, entries, i + 1);
    } else {
      assert entries[..i] == entries;
    }
  }

  method ParseAllowlist(parse: AddressParser, entries: seq<string>) returns (rules: Option<seq<Rule>>)
    ensures rules == ParseAll(parse, entries)
  {
    var out: seq<Rule> := [];
    for i := 0 to |entries|
      invariant ParseAll(parse, entries[..i]) == Some(out)
    {
      ParseAllNext(parse, entries, i);
      var r := ParseEntry(parse, entries[i]);
      if r.None? {
        ErrorStays(parse, entries, i + 1);
        return None;
      }
      out := out + [r.value];
    }
    assert entries[..|entries|] == entries;
    return Some(out);
  }

  predicate RuleMatches(parse: AddressParser, r: Rule, host: string, port: int)
    requires ValidRule(r)
  {
    var dial := ParseIP(parse, host);
    (r.portAny || r.portMin <= port <= r.portMax)
    && if r.cidr.Some? then dial.Some? && NetContains(r.cidr.value, dial.value)
       else if r.ip.Some? then dial == r.ip
       else dial.None? && ToLower(r.hostname) == ToLower(host)
  }

  ghost predicate Allowed(parse: AddressParser, rules: seq<Rule>, host: string, port: int)
    requires forall r :: r in rules ==> ValidRule(r)
  {
    exists r :: r in rules && RuleMatches(parse, r, host, port)
  }

  method IsAllowed(parse: AddressParser, rules: seq<Rule>, host: string, port: int) returns (allowed: bool)
    requires forall r :: r in rules ==> ValidRule(r)
    ensures allowed <==> Allowed(parse, rules, host, port)
  {
    var dialIP := ParseIP(parse, host);
    for i := 0 to |rules|
      invariant forall j :: 0 <= j < i ==> !RuleMatches(parse, rules[j], host, port)
    {
      var r := rules[i];
      assert r in rules;
      if !r.portAny && (port < r.portMin || port > r.portMax) {
        continue;
      }
      if r.cidr.Some? {
        if dialIP.None? {
          continue;
        }
        if NetContains(r.cidr.value, dialIP.value) {
          return true;
        }
      } else if r.ip.Some? {
        if dialIP.None? {
          continue;
        }
        if r.ip == dialIP {
          return true;
        }
      } else {
        if dialIP.Some? {
          continue;
        }
        if ToLower(r.hostname) == ToLower(host) {
          return true;
        }
      }
    }
    return false;
  }

  // ---------------------------------------- what an entry means, independently

  /** The text `a/n` with `n` a numeral no wider than the address. */
  ghost predicate CidrText(parse: AddressParser, h: string, a: string, b: Address, n: nat) {
    exists numeral :: CidrTextWith(parse, h, a, b, n, numeral)
  }

  ghost predicate CidrTextWith(parse: AddressParser, h: string, a: string, b: Address, n: nat, numeral: string) {
    h == a + "/" + numeral && '/' !in a && parse(a) == Some(b)
    && numeral != "" && AllDigits(numeral) && DigitsValue(numeral) == n && n <= 8 * |b|
  }

  /** A block written with four bytes holds only IPv4 addresses.  One written with
      sixteen holds the IPv6 addresses of its interval, and an IPv4 address through its
      mapped form only if the block lies inside the mapped range. */
  predicate BlockHolds(b: Address, n: nat, dial: Address)
    requires n <= 8 * |b|
  {
    if |b| == |dial| then InBlock(b, n, dial)
    else |b| == 16 && n >= 96 && InBlock(b, n, V4_PREFIX + dial)
  }

  ghost predicate HostDenotes(parse: AddressParser, h: string, host: string) {
    var dial := ParseIP(parse, host);
    if '/' in h then
      dial.Some? && exists a, b, n :: CidrText(parse, h, a, b, n) && BlockHolds(b, n, dial.value)
    else if ParseIP(parse, h).Some? then dial == ParseIP(parse, h)
    else dial.None? && ToLower(h) == ToLower(host)
  }

  predicate RangeText(p: string, x: string, y: string, lo: int, hi: int) {
    '-' !in x && p == x + "-" + y && Atoi(x) == Some(lo) && Atoi(y) == Some(hi) && 1 <= lo <= hi <= 65535
  }

  ghost predicate PortInterval(p: string, lo: int, hi: int) {
    (exists x, y :: RangeText(p, x, y, lo, hi))
    || ('-' !in p && Atoi(p) == Some(lo) && lo == hi && 1 <= lo <= 65535)
  }

  ghost predicate PortDenotes(p: string, port: int) {
    p == "*" || exists lo, hi :: PortInterval(p, lo, hi) && lo <= port <= hi
  }

  ghost predicate WellFormedHost(parse: AddressParser, h: string) {
    '/' in h ==> exists a, b, n :: CidrText(parse, h, a, b, n)
  }

  ghost predicate WellFormedPort(p: string) {
    p == "*" || exists lo, hi :: PortInterval(p, lo, hi)
  }

  /** `e` is `h:p`, split at its last colon. */
  predicate EntryText(e: string, h: string, p: string) {
    e == h + ":" + p && ':' !in p
  }

  ghost predicate WellFormed(parse: AddressParser, e: string) {
    exists h, p :: EntryText(e, h, p) && WellFormedHost(parse, h) && WellFormedPort(p)
  }

  ghost predicate Denotes(parse: AddressParser, e: string, host: string, port: int) {
    exists h, p :: EntryText(e, h, p) && HostDenotes(parse, h, host) && PortDenotes(p, port)
  }

  // ---------------------------------------------------- the two sides agree

  lemma EntryTextUnique(e: string, h: string, p: string)
    requires EntryText(e, h, p)
    ensures LastIndexChar(e, ':') == |h| && e[..|h|] == h && e[|h| + 1..] == p
  {
    LastIndexCharIs(h, ':', p);
    assert e == h + [':'] + p;
  }

  lemma CidrTextUnique(parse: AddressParser, h: string, a: string, b: Address, n: nat)
    requires CidrText(parse, h, a, b, n)
    ensures var m := PrefixMask(n, |b|); ParseCIDR(parse, h) == Some(Net(Masked(b, m), m))
    ensures '/' in h
  {
    var numeral :| CidrTextWith(parse, h, a, b, n, numeral);
    IndexCharIs(a, '/', numeral);
    assert h == a + ['/'] + numeral;
    assert h[..|a|] == a && h[|a| + 1..] == numeral;
    assert h[|a|] == '/';
  }

  lemma ParseCIDRExactly(parse: AddressParser, h: string) returns (a: string, b: Address, n: nat)
    ensures ParseCIDR(parse, h).Some? ==> CidrText(parse, h, a, b, n)
  {
    a, b, n := "", [0, 0, 0, 0], 0;
    if ParseCIDR(parse, h).Some? {
      var i := IndexChar(h, '/');
      var numeral := h[i + 1..];
      a, b, n := h[..i], parse(h[..i]).value, DigitsValue(numeral);
      assert h == a + "/" + numeral;
      assert CidrTextWith(parse, h, a, b, n, numeral);
    }
  }

  lemma MaskTail(n: nat)
    requires 96 <= n <= 128
    ensures PrefixMask(n, 16)[..12] == PrefixMask(96, 12) && PrefixMask(n, 16)[12..] == PrefixMask(n - 96, 4)
    ensures forall m :: m in PrefixMask(96, 12) ==> m == 0xFF
  {
    MaskTailFrom(n, 12);
  }

  lemma {:induction false} MaskTailFrom(n: nat, k: nat)
    requires 8 * k <= n
    ensures PrefixMask(n, k + 4)[..k] == PrefixMask(8 * k, k)
    ensures PrefixMask(n, k + 4)[k..] == PrefixMask(n - 8 * k, 4)
    ensures forall m :: m in PrefixMask(8 * k, k) ==> m == 0xFF
  {
    if k > 0 {
      MaskTailFrom(n - 8, k - 1);
      assert PrefixMask(n, k + 4) == [0xFF] + PrefixMask(n - 8, k - 1 + 4);
      assert PrefixMask(8 * k, k) == [0xFF] + PrefixMask(8 * (k - 1), k - 1);
    }
  }

  /** A masked network is mapped only if its prefix covers the mapped prefix. */
  lemma MaskedIsMapped(b: Address, n: nat)
    requires |b| == 16 && n <= 128
    ensures IsMapped(Masked(b, PrefixMask(n, 16))) <==> n >= 96 && IsMapped(b)
  {
    var m := PrefixMask(n, 16);
    var x := Masked(b, m);
    if n >= 96 {
      MaskTail(n);
      forall i | 0 <= i < 12 ensures x[i] == b[i] {
        assert m[i] == m[..12][i] && m[i] in m[..12];
        AndAllOnes(b[i]);
      }
      assert x[..12] == b[..12];
    } else {
      ShortMaskByte(n, 16, 11);
      AndMaskEven(b[11], m[11]);
      assert x[..12][11] == x[11];
    }
  }

  lemma {:induction false} ShortMaskByte(n: nat, len: nat, i: nat)
    requires i < len && n < 8 * (i + 1)
    ensures PrefixMask(n, len)[i] as int % 2 == 0
  {
    if n >= 8 {
      ShortMaskByte(n - 8, len - 1, i - 1);
    } else if i > 0 {
      ShortMaskByte(0, len - 1, i - 1);
    } else {
      assert P2(8 - n) == 2 * P2(7 - n);
    }
  }

  lemma AndMaskEven(a: byte, m: byte)
    requires m as int % 2 == 0
    ensures AndByte(a, m) != 0xFF
  {
  }

  lemma AndIdempotent(a: byte, k: nat)
    requires k <= 8
    ensures AndByte(a, MaskByte(k)) < 0x100
    ensures AndByte(AndByte(a, MaskByte(k)) as byte, MaskByte(k)) == AndByte(a, MaskByte(k))
  {
    var size := P2(8 - k);
    AndMaskByte(a, k);
    AndMaskByte(AndByte(a, MaskByte(k)) as byte, k);
    RoundDownTwice(a as nat, size);
  }

  lemma {:induction false} PrefixMaskBytes(n: nat, len: nat, i: nat)
    requires i < len
    ensures exists k: nat :: k <= 8 && PrefixMask(n, len)[i] == MaskByte(k)
  {
    assert MaskByte(8) == 0xFF;
    if i == 0 {
      if n < 8 {
        assert PrefixMask(n, len)[0] == MaskByte(n);
      }
    } else {
      PrefixMaskBytes(if n >= 8 then n - 8 else 0, len - 1, i - 1);
    }
  }

  /** Comparing against the masked network is comparing against the address itself. */
  lemma MaskedTwice(b: seq<byte>, d: seq<byte>, n: nat)
    requires |b| == |d|
    ensures var m := PrefixMask(n, |b|); SameUnderMask(Masked(b, m), d, m) <==> SameUnderMask(b, d, m)
  {
    var m := PrefixMask(n, |b|);
    var x := Masked(b, m);
    forall i | 0 <= i < |b| ensures AndByte(x[i], m[i]) == AndByte(b[i], m[i]) {
      PrefixMaskBytes(n, |b|, i);
      var k: nat :| k <= 8 && m[i] == MaskByte(k);
      AndIdempotent(b[i], k);
    }
  }

  /** A mapped block compared on its last four bytes is the same block compared on all
      sixteen against the mapped form of the address. */
  lemma MappedTail(b: Address, n: nat, dial: Address)
    requires |b| == 16 && IsMapped(b) && 96 <= n <= 128 && |dial| == 4
    ensures var m := PrefixMask(n, 16); var x := Masked(b, m);
            SameUnderMask(x[12..], dial, m[12..]) <==> SameUnderMask(x, V4_PREFIX + dial, m)
  {
    var m := PrefixMask(n, 16);
    var x := Masked(b, m);
    var d := V4_PREFIX + dial;
    MaskedIsMapped(b, n);
    assert forall i :: 0 <= i < 12 ==> x[i] == x[..12][i] && d[i] == V4_PREFIX[i];
    assert forall i :: 0 <= i < 4 ==> x[12..][i] == x[12 + i] && d[12 + i] == dial[i] && m[12..][i] == m[12 + i];
    if SameUnderMask(x[12..], dial, m[12..]) {
      forall i | 0 <= i < 16 ensures AndByte(x[i], m[i]) == AndByte(d[i], m[i]) {
        if i >= 12 {
          assert AndByte(x[12..][i - 12], m[12..][i - 12]) == AndByte(dial[i - 12], m[12..][i - 12]);
        }
      }
    }
  }

  /** An address inside a block at least 96 bits deep starts with the block's first twelve bytes. */
  lemma DeepBlockSharesPrefix(b: Address, n: nat, d: Address)
    requires |b| == |d| == 16 && 96 <= n <= 128 && SameUnderMask(b, d, PrefixMask(n, 16))
    ensures b[..12] == d[..12]
  {
    MaskTail(n);
    var m := PrefixMask(n, 16);
    forall i | 0 <= i < 12 ensures b[i] == d[i] {
      assert m[i] == m[..12][i] && m[i] in m[..12];
      AndAllOnes(b[i]);
      AndAllOnes(d[i]);
    }
  }

  lemma NetContainsExactly(b: Address, n: nat, dial: Address)
    requires n <= 8 * |b| && !IsMapped(dial)
    ensures var m := PrefixMask(n, |b|);
            NetContains(Net(Masked(b, m), m), dial) <==> BlockHolds(b, n, dial)
  {
    var m := PrefixMask(n, |b|);
    var x := Masked(b, m);
    if |b| == 4 {
      if |dial| == 4 {
        MaskedTwice(b, dial, n);
        SameUnderMaskIsInBlock(b, dial, n);
      }
    } else {
      MaskedIsMapped(b, n);
      var d := if |dial| == 4 then V4_PREFIX + dial else dial;
      assert |dial| == 4 ==> d[..12] == V4_PREFIX;
      MaskedTwice(b, d, n);
      SameUnderMaskIsInBlock(b, d, n);
      if IsMapped(x) && |dial| == 4 {
        MappedTail(b, n, dial);
      } else if n >= 96 && SameUnderMask(b, d, m) {
        DeepBlockSharesPrefix(b, n, d);
      }
    }
  }

  lemma ParseHostExactly(parse: AddressParser, h: string)
    ensures ParseHostPart(parse, h).Some? <==> WellFormedHost(parse, h)
  {
    if '/' in h {
      if ParseCIDR(parse, h).Some? {
        var a, b, n := ParseCIDRExactly(parse, h);
      }
      if WellFormedHost(parse, h) {
        var a, b, n :| CidrText(parse, h, a, b, n);
        CidrTextUnique(parse, h, a, b, n);
      }
    }
  }

  lemma RangeTextUnique(p: string, x: string, y: string, lo: int, hi: int)
    requires RangeText(p, x, y, lo, hi)
    ensures ParsePortPart(p) == Some(Ports(lo, hi))
  {
    IndexCharIs(x, '-', y);
    assert p == x + ['-'] + y;
    assert p[..|x|] == x && p[|x| + 1..] == y;
    assert p[|x|] == '-';
  }

  lemma ParsedPortIsInterval(p: string, lo: int, hi: int)
    requires ParsePortPart(p) == Some(Ports(lo, hi))
    ensures p != "*" && PortInterval(p, lo, hi)
  {
    var dash := IndexChar(p, '-');
    if dash >= 0 {
      assert p == p[..dash] + "-" + p[dash + 1..];
      assert RangeText(p, p[..dash], p[dash + 1..], lo, hi);
    }
  }

  lemma IntervalIsParsedPort(p: string, lo: int, hi: int)
    requires p != "*" && PortInterval(p, lo, hi)
    ensures ParsePortPart(p) == Some(Ports(lo, hi))
  {
    if x, y :| RangeText(p, x, y, lo, hi) {
      RangeTextUnique(p, x, y, lo, hi);
    }
  }

  lemma ParsePortExactly(p: string, lo: int, hi: int)
    ensures ParsePortPart(p) == Some(Ports(lo, hi)) <==> p != "*" && PortInterval(p, lo, hi)
  {
    if ParsePortPart(p) == Some(Ports(lo, hi)) {
      ParsedPortIsInterval(p, lo, hi);
    }
    if p != "*" && PortInterval(p, lo, hi) {
      IntervalIsParsedPort(p, lo, hi);
    }
  }

  lemma ParsePortSucceedsExactly(p: string)
    ensures ParsePortPart(p).Some? <==> WellFormedPort(p)
  {
    if p != "*" {
      if ParsePortPart(p).Some? {
        var ports := ParsePortPart(p).value;
        ParsePortExactly(p, ports.lo, ports.hi);
      }
      if lo, hi :| PortInterval(p, lo, hi) {
        ParsePortExactly(p, lo, hi);
      }
    }
  }

  lemma ParseEntryParts(parse: AddressParser, e: string, h: string, p: string)
    requires EntryText(e, h, p)
    ensures ParseEntry(parse, e).Some? <==> WellFormedHost(parse, h) && WellFormedPort(p)
    ensures ParseEntry(parse, e).Some? ==> ValidRule(ParseEntry(parse, e).value)
  {
    EntryTextUnique(e, h, p);
    ParseHostExactly(parse, h);
    ParsePortSucceedsExactly(p);
  }

  /** Parsing an entry succeeds exactly when the entry is well formed. */
  lemma ParseEntryExactly(parse: AddressParser, e: string)
    ensures ParseEntry(parse, e).Some? <==> WellFormed(parse, e)
    ensures ParseEntry(parse, e).Some? ==> ValidRule(ParseEntry(parse, e).value)
  {
    var i := LastIndexChar(e, ':');
    if i >= 0 {
      var h, p := e[..i], e[i + 1..];
      assert EntryText(e, h, p) by { assert e == h + ":" + p; }
      ParseEntryParts(parse, e, h, p);
    }
    forall h, p | EntryText(e, h, p)
      ensures ParseEntry(parse, e).Some? <==> WellFormedHost(parse, h) && WellFormedPort(p)
    {
      ParseEntryParts(parse, e, h, p);
    }
  }

  lemma HostMatchExactly(parse: AddressParser, h: string, host: string)
    requires WellFormedHost(parse, h)
    ensures ParseHostPart(parse, h).Some?
    ensures var p := ParseHostPart(parse, h).value;
            var r := RuleFrom(p, AnyPort);
            ValidRule(r) && forall port :: RuleMatches(parse, r, host, port) <==> HostDenotes(parse, h, host)
  {
    ParseHostExactly(parse, h);
    var dial := ParseIP(parse, host);
    if '/' in h {
      var a, b, n :| CidrText(parse, h, a, b, n);
      CidrTextUnique(parse, h, a, b, n);
      if dial.Some? {
        NetContainsExactly(b, n, dial.value);
        forall a', b', n' | CidrText(parse, h, a', b', n') ensures BlockHolds(b', n', dial.value) <==> BlockHolds(b, n, dial.value) {
          CidrTextUnique(parse, h, a', b', n');
          NetContainsExactly(b', n', dial.value);
        }
      }
    } else {
      assert ToLower(ToLower(h)) == ToLower(h);
    }
  }

  lemma DenotesParts(parse: AddressParser, e: string, h: string, p: string, host: string, port: int)
    requires EntryText(e, h, p)
    ensures Denotes(parse, e, host, port) <==> HostDenotes(parse, h, host) && PortDenotes(p, port)
  {
    forall h', p' | EntryText(e, h', p') ensures h' == h && p' == p {
      EntryTextUnique(e, h', p');
      EntryTextUnique(e, h, p);
    }
  }

  lemma RuleOfParts(parse: AddressParser, e: string, h: string, p: string)
    requires EntryText(e, h, p) && ParseHostPart(parse, h).Some? && ParsePortPart(p).Some?
    ensures ParseEntry(parse, e) == Some(RuleFrom(ParseHostPart(parse, h).value, ParsePortPart(p).value))
  {
    EntryTextUnique(e, h, p);
  }

  lemma PortIsChecked(parse: AddressParser, h: HostPart, p: PortPart, host: string, port: int)
    requires ValidRule(RuleFrom(h, AnyPort))
    ensures ValidRule(RuleFrom(h, p))
    ensures RuleMatches(parse, RuleFrom(h, p), host, port)
            <==> RuleMatches(parse, RuleFrom(h, AnyPort), host, port) && (p.AnyPort? || p.lo <= port <= p.hi)
  {
  }

  /** A rule admits a destination exactly when the entry it came from denotes it. */
  lemma RuleMatchesExactly(parse: AddressParser, e: string, host: string, port: int)
    requires WellFormed(parse, e)
    ensures ParseEntry(parse, e).Some? && ValidRule(ParseEntry(parse, e).value)
    ensures RuleMatches(parse, ParseEntry(parse, e).value, host, port) <==> Denotes(parse, e, host, port)
  {
    var h, p :| EntryText(e, h, p) && WellFormedHost(parse, h) && WellFormedPort(p);
    HostMatchExactly(parse, h, host);
    PortMatchExactly(p, port);
    RuleOfParts(parse, e, h, p);
    PortIsChecked(parse, ParseHostPart(parse, h).value, ParsePortPart(p).value, host, port);
    DenotesParts(parse, e, h, p, host, port);
  }

  lemma PortMatchExactly(p: string, port: int)
    requires WellFormedPort(p)
    ensures ParsePortPart(p).Some?
    ensures PortDenotes(p, port)
            <==> ParsePortPart(p).value.AnyPort? || ParsePortPart(p).value.lo <= port <= ParsePortPart(p).value.hi
  {
    if p != "*" {
      var lo, hi :| PortInterval(p, lo, hi);
      ParsePortExactly(p, lo, hi);
      forall lo', hi' | PortInterval(p, lo', hi') ensures lo' == lo && hi' == hi {
        ParsePortExactly(p, lo', hi');
      }
    }
  }

  /** The rules of a list, entry by entry. */
  ghost predicate RulesOf(parse: AddressParser, entries: seq<string>, rules: seq<Rule>) {
    |rules| == |entries|
    && forall i :: 0 <= i < |entries| ==> Some(rules[i]) == ParseEntry(parse, entries[i])
  }

  lemma RulesOfOneMore(parse: AddressParser, entries: seq<string>, rules: seq<Rule>, r: Rule)
    requires entries != [] && RulesOf(parse, entries[..|entries| - 1], rules)
    requires ParseEntry(parse, entries[|entries| - 1]) == Some(r)
    ensures RulesOf(parse, entries, rules + [r])
  {
    forall i | 0 <= i < |entries| ensures Some((rules + [r])[i]) == ParseEntry(parse, entries[i]) {
      if i < |rules| {
        assert entries[..|entries| - 1][i] == entries[i];
      }
    }
  }

  /** A list parses, to a rule for each entry, exactly when every entry is well formed. */
  lemma {:induction false} ParsesExactly(parse: AddressParser, entries: seq<string>)
    ensures ParseAll(parse, entries).Some? <==> forall e :: e in entries ==> WellFormed(parse, e)
    ensures ParseAll(parse, entries).Some? ==> RulesOf(parse, entries, ParseAll(parse, entries).value)
  {
    if entries != [] {
      var front, last := entries[..|entries| - 1], entries[|entries| - 1];
      ParsesExactly(parse, front);
      ParseEntryExactly(parse, last);
      assert forall e :: e in entries <==> e in front || e == last;
      if ParseAll(parse, entries).Some? {
        RulesOfOneMore(parse, entries, ParseAll(parse, front).value, ParseEntry(parse, last).value);
      }
    }
  }

  lemma RulesOfAreValid(parse: AddressParser, entries: seq<string>, rules: seq<Rule>)
    requires RulesOf(parse, entries, rules)
    ensures forall r :: r in rules ==> ValidRule(r)
    ensures forall e :: e in entries ==> WellFormed(parse, e)
  {
    forall i | 0 <= i < |rules| ensures ValidRule(rules[i]) && WellFormed(parse, entries[i]) {
      ParseEntryExactly(parse, entries[i]);
    }
  }

  /** A destination is allowed exactly when some entry denotes it; so nothing is allowed
      by the empty list, and appending lists is union. */
  lemma AllowedExactly(parse: AddressParser, entries: seq<string>, rules: seq<Rule>, host: string, port: int)
    requires RulesOf(parse, entries, rules)
    ensures forall r :: r in rules ==> ValidRule(r)
    ensures Allowed(parse, rules, host, port) <==> exists e :: e in entries && Denotes(parse, e, host, port)
  {
    RulesOfAreValid(parse, entries, rules);
    forall i | 0 <= i < |entries|
      ensures RuleMatches(parse, rules[i], host, port) <==> Denotes(parse, entries[i], host, port)
    {
      RuleMatchesExactly(parse, entries[i], host, port);
    }
    if Allowed(parse, rules, host, port) {
      var r :| r in rules && RuleMatches(parse, r, host, port);
      var i :| 0 <= i < |rules| && rules[i] == r;
      assert entries[i] in entries;
    }
    if e :| e in entries && Denotes(parse, e, host, port) {
      var i :| 0 <= i < |entries| && entries[i] == e;
      assert rules[i] in rules;
    }
  }

  /** Appending two lists parses both, or neither. */
  lemma {:induction false} ParseOfConcat(parse: AddressParser, a: seq<string>, b: seq<string>)
    ensures ParseAll(parse, a + b)
            == if ParseAll(parse, a).Some? && ParseAll(parse, b).Some? then
                 Some(ParseAll(parse, a).value + ParseAll(parse, b).value)
               else None
  {
    if b == [] {
      assert a + b == a;
      assert ParseAll(parse, a).Some? ==> ParseAll(parse, a).value + [] == ParseAll(parse, a).value;
    } else {
      var front, last := b[..|b| - 1], b[|b| - 1];
      assert (a + b)[..|a + b| - 1] == a + front && (a + b)[|a + b| - 1] == last;
      ParseOfConcat(parse, a, front);
      WithRuleConcat(ParseAll(parse, a), ParseAll(parse, front), ParseEntry(parse, last));
    }
  }

  lemma WithRuleConcat(a: Option<seq<Rule>>, b: Option<seq<Rule>>, r: Option<Rule>)
    ensures WithRule(if a.Some? && b.Some? then Some(a.value + b.value) else None, r)
            == if a.Some? && WithRule(b, r).Some? then Some(a.value + WithRule(b, r).value) else None
  {
    if a.Some? && b.Some? && r.Some? {
      assert a.value + b.value + [r.value] == a.value + (b.value + [r.value]);
    }
  }

  /** The appended list allows what either allows; the empty list allows nothing. */
  lemma ConcatIsUnion(parse: AddressParser, a: seq<string>, b: seq<string>, host: string, port: int)
    requires ParseAll(parse, a).Some? && ParseAll(parse, b).Some?
    ensures ParseAll(parse, a + b).Some? && ParseAll(parse, []).Some?
    ensures var ra, rb, r := ParseAll(parse, a).value, ParseAll(parse, b).value, ParseAll(parse, a + b).value;
            && (forall x :: x in ra || x in rb || x in r ==> ValidRule(x))
            && (Allowed(parse, r, host, port) <==> Allowed(parse, ra, host, port) || Allowed(parse, rb, host, port))
            && !Allowed(parse, ParseAll(parse, []).value, host, port)
  {
    ParseOfConcat(parse, a, b);
    ParsesExactly(parse, a);
    ParsesExactly(parse, b);
    RulesOfAreValid(parse, a, ParseAll(parse, a).value);
    RulesOfAreValid(parse, b, ParseAll(parse, b).value);
  }
}
