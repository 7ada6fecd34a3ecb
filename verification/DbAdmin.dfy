/** Grant strings, and quoted identifiers as PostgreSQL reads them. */
module DbAdmin {
  import opened Text

  // ------------------------------------------------------------------ grants

  datatype Grant = Grant(schema: string, table: string, privs: seq<string>)

  datatype GrantError = NoColon | NoDot | NoPrivileges

  datatype Parsed = Good(grant: Grant) | Bad(error: GrantError)

  function TrimmedParts(parts: seq<string>): seq<string> {
    if parts == [] then []
    else
      var p := TrimSpace(parts[|parts| - 1]);
      if p != "" then TrimmedParts(parts[..|parts| - 1]) + [p] else TrimmedParts(parts[..|parts| - 1])
  }

  function PrivsIn(s: string): seq<string> {
    TrimmedParts(Split(TrimSpace(s), ','))
  }

  datatype Pair = Pair(left: string, right: string)

  /** `strings.SplitN` with at most two parts; `None` when there is only one. */
  function Cut(s: string, c: char): Option<Pair> {
    var i := IndexChar(s, c);
    if i == -1 then None else Some(Pair(s[..i], s[i + 1..]))
  }

  function Assembled(target: Pair, privs: seq<string>): Parsed {
    if privs == [] then Bad(NoPrivileges) else Good(Grant(TrimSpace(target.left), TrimSpace(target.right), privs))
  }

  function GrantFrom(target: Option<Pair>, right: string): Parsed {
    if target == None then Bad(NoDot) else Assembled(target.value, PrivsIn(right))
  }

  /** A grant from the text before and the text after the colon. */
  function GrantOf(left: string, right: string): Parsed {
    GrantFrom(Cut(TrimSpace(left), '.'), right)
  }

  function GrantIn(s: string): Parsed {
    match Cut(s, ':')
    case None => Bad(NoColon)
    case Some(p) => GrantOf(p.left, p.right)
  }

  lemma TrimmedPartsNext(parts: seq<string>, i: nat)
    requires i < |parts|
    ensures var p := TrimSpace(parts[i]);
            TrimmedParts(parts[..i + 1]) == if p != "" then TrimmedParts(parts[..i]) + [p] else TrimmedParts(parts[..i])
  {
    assert parts[..i + 1][..i] == parts[..i];
  }

  method ReadPrivs(parts: seq<string>) returns (privs: seq<string>)
    ensures privs == TrimmedParts(parts)
  {
    privs := [];
    for i := 0 to |parts|
      invariant privs == TrimmedParts(parts[..i])
    {
      TrimmedPartsNext(parts, i);
      var priv := TrimSpace(parts[i]);
      if priv != "" {
        privs := privs + [priv];
      }
    }
    assert parts[..|parts|] == parts;
  }

  /** `ParseGrant`. */
  method ParseGrant(s: string) returns (r: Parsed)
    ensures r == GrantIn(s)
  {
    var parts := Cut(s, ':');
    if parts == None {
      return Bad(NoColon);
    }
    r := ParseTarget(parts.value.left, parts.value.right);
  }

  method ParseTarget(left: string, right: string) returns (r: Parsed)
    ensures r == GrantOf(left, right)
  {
    var dotParts := Cut(TrimSpace(left), '.');
    if dotParts == None {
      return Bad(NoDot);
    }
    var schema, table := TrimSpace(dotParts.value.left), TrimSpace(dotParts.value.right);
    var privs := ReadPrivs(Split(TrimSpace(right), ','));
    if |privs| == 0 {
      return Bad(NoPrivileges);
    }
    r := Good(Grant(schema, table, privs));
  }

  /** The documented form "schema.table: P1,P2". */
  function Printed(g: Grant): string {
    g.schema + "." + g.table + ":" + (" " + Join(g.privs, ','))
  }

  predicate ProperPriv(p: string) {
    p != "" && Trimmed(p) && ',' !in p
  }

  /** Trimmed parts without the separators that follow them. */
  predicate Proper(g: Grant) {
    && Trimmed(g.schema) && ':' !in g.schema && '.' !in g.schema
    && Trimmed(g.table) && ':' !in g.table
    && g.privs != [] && forall p :: p in g.privs ==> ProperPriv(p)
  }

  // ------------------------------------------------- what parsing can return

  lemma {:induction false} PartsAreProper(parts: seq<string>)
    requires forall p :: p in parts ==> ',' !in p
    ensures forall p :: p in TrimmedParts(parts) ==> ProperPriv(p)
  {
    if parts != [] {
      assert parts[|parts| - 1] in parts;
      PartsAreProper(parts[..|parts| - 1]);
      TrimKeeps(parts[|parts| - 1], ',');
    }
  }

  lemma PrivsAreProper(s: string)
    ensures forall p :: p in PrivsIn(s) ==> ProperPriv(p)
  {
    SplitPartsAreFree(TrimSpace(s), ',');
    PartsAreProper(Split(TrimSpace(s), ','));
  }

  lemma CutParts(s: string, c: char)
    requires Cut(s, c).Some?
    ensures s == Cut(s, c).value.left + [c] + Cut(s, c).value.right && c !in Cut(s, c).value.left
    ensures forall x :: x !in s ==> x !in Cut(s, c).value.left && x !in Cut(s, c).value.right
  {
  }

  lemma GrantOfIsProper(left: string, right: string)
    requires ':' !in left && GrantOf(left, right).Good?
    ensures Proper(GrantOf(left, right).grant)
  {
    TrimKeeps(left, ':');
    TargetIsProper(TrimSpace(left));
    PrivsAreProper(right);
  }

  lemma TargetIsProper(target: string)
    requires ':' !in target && Cut(target, '.').Some?
    ensures var schema, table := TrimSpace(Cut(target, '.').value.left), TrimSpace(Cut(target, '.').value.right);
            && Trimmed(schema) && ':' !in schema && '.' !in schema
            && Trimmed(table) && ':' !in table
  {
    CutParts(target, '.');
    var p := Cut(target, '.').value;
    TrimKeeps(p.left, '.');
    TrimKeeps(p.left, ':');
    TrimKeeps(p.right, ':');
  }

  /** Whatever parses, parses to proper parts. */
  lemma ParsedIsProper(s: string)
    requires GrantIn(s).Good?
    ensures Proper(GrantIn(s).grant)
  {
    CutParts(s, ':');
    GrantOfIsProper(Cut(s, ':').value.left, Cut(s, ':').value.right);
  }

  // ---------------------------------------------------------- print and parse

  lemma {:induction false} JoinEnds(ps: seq<string>)
    requires ps != [] && forall p :: p in ps ==> ProperPriv(p)
    ensures var j := Join(ps, ',');
            j != "" && !IsSpace(j[0]) && !IsSpace(j[|j| - 1])
  {
    assert ProperPriv(ps[0]);
    if |ps| > 1 {
      JoinEnds(ps[1..]);
      JoinFirst(ps, ',');
      Ends(ps[0], ",", Join(ps[1..], ','));
    }
  }

  lemma Ends(a: string, b: string, c: string)
    requires a != "" && c != ""
    ensures (a + b + c)[0] == a[0] && (a + b + c)[|a + b + c| - 1] == c[|c| - 1]
  {
  }

  lemma {:induction false} ProperPartsStay(ps: seq<string>)
    requires forall p :: p in ps ==> ProperPriv(p)
    ensures TrimmedParts(ps) == ps
  {
    if ps != [] {
      var front, last := ps[..|ps| - 1], ps[|ps| - 1];
      assert front + [last] == ps;
      assert ProperPriv(last);
      ProperPartsStay(front);
    }
  }

  lemma TrimOneBlank(s: string)
    requires s != "" && !IsSpace(s[0]) && !IsSpace(s[|s| - 1])
    ensures TrimSpace(" " + s) == s
  {
    assert (" " + s)[1..] == s;
    assert TrimLeft(" " + s) == TrimLeft(s) == s;
  }

  lemma PrivsReadBack(ps: seq<string>)
    requires ps != [] && forall p :: p in ps ==> ProperPriv(p)
    ensures PrivsIn(" " + Join(ps, ',')) == ps
  {
    JoinEnds(ps);
    TrimOneBlank(Join(ps, ','));
    SplitOfJoin(ps, ',');
    ProperPartsStay(ps);
  }

  lemma CutReadsBack(left: string, c: char, right: string)
    requires c !in left
    ensures Cut(left + [c] + right, c) == Some(Pair(left, right))
  {
    IndexCharIs(left, c, right);
    var s := left + [c] + right;
    assert s[..|left|] == left && s[|left| + 1..] == right;
  }

  lemma TargetIsTrimmed(schema: string, table: string)
    requires Trimmed(schema) && Trimmed(table)
    ensures Trimmed(schema + "." + table)
  {
    var t := schema + "." + table;
    assert t[0] == if schema == "" then '.' else schema[0];
    assert t[|t| - 1] == if table == "" then '.' else table[|table| - 1];
  }

  lemma ProperReadsBack(g: Grant)
    requires Proper(g)
    ensures GrantIn(Printed(g)) == Good(g)
  {
    var target, right := g.schema + "." + g.table, " " + Join(g.privs, ',');
    CutReadsBack(target, ':', right);
    assert target + ":" + right == target + [':'] + right;
    TargetIsTrimmed(g.schema, g.table);
    CutReadsBack(g.schema, '.', g.table);
    assert target == g.schema + ['.'] + g.table;
    PrivsReadBack(g.privs);
  }

  /** Printing and parsing is the identity exactly on proper grants. */
  lemma GrantRoundTripExactly(g: Grant)
    ensures GrantIn(Printed(g)) == Good(g) <==> Proper(g)
  {
    if Proper(g) {
      ProperReadsBack(g);
    }
    if GrantIn(Printed(g)) == Good(g) {
      ParsedIsProper(Printed(g));
    }
  }

  /** Any grant string means the same as the documented form of what it parses to. */
  lemma GrantNormalForm(s: string)
    requires GrantIn(s).Good?
    ensures GrantIn(Printed(GrantIn(s).grant)) == GrantIn(s)
  {
    ParsedIsProper(s);
    ProperReadsBack(GrantIn(s).grant);
  }

  // -------------------------------------------------- grants with blanks in them

  /** A grant string as its author put it down. */
  datatype Source = Source(schema: Padded, table: Padded, privs: seq<Padded>)

  function TextOf(w: Source): string {
    Shown(w.schema) + "." + Shown(w.table) + ":" + Join(ShownAll(w.privs), ',')
  }

  /** The first dot ends the schema, the first colon the table, and every comma a privilege. */
  predicate WellFormed(w: Source) {
    && WellPadded(w.schema) && '.' !in w.schema.text && ':' !in w.schema.text
    && WellPadded(w.table) && ':' !in w.table.text
    && w.privs != [] && forall p :: p in w.privs ==> WellPadded(p) && ',' !in p.text
  }

  /** The texts that are more than blanks, in order. */
  function Named(ps: seq<Padded>): seq<string> {
    if ps == [] then []
    else Named(ps[..|ps| - 1]) + if ps[|ps| - 1].text != "" then [ps[|ps| - 1].text] else []
  }

  function Meaning(w: Source): Parsed {
    if Named(w.privs) == [] then Bad(NoPrivileges) else Good(Grant(w.schema.text, w.table.text, Named(w.privs)))
  }

  function NonEmpty(p: string): seq<string> {
    if p != "" then [p] else []
  }

  lemma LastPart(front: seq<string>, last: string)
    ensures TrimmedParts(front + [last]) == TrimmedParts(front) + NonEmpty(TrimSpace(last))
  {
    assert (front + [last])[..|front|] == front;
  }

  lemma {:induction false} FirstPart(a: string, parts: seq<string>)
    ensures TrimmedParts([a] + parts) == NonEmpty(TrimSpace(a)) + TrimmedParts(parts)
  {
    if parts == [] {
      LastPart([], a);
      assert [a] + parts == [] + [a];
    } else {
      var front, last := parts[..|parts| - 1], parts[|parts| - 1];
      assert parts == front + [last];
      FirstPart(a, front);
      Regrouped([a], front, [last]);
      LastPart([a] + front, last);
      LastPart(front, last);
      Regrouped(NonEmpty(TrimSpace(a)), TrimmedParts(front), NonEmpty(TrimSpace(last)));
    }
  }

  lemma Surrounded(l: string, x: string, m: string, y: string, r: string)
    ensures l + (x + m + y) + r == (l + x) + m + (y + r)
  {
    Regrouped(l, x, m);
    Regrouped(l, x + m, y);
    Regrouped(l + x + m, y, r);
  }

  /** Blanks at the ends of a list make no difference to its parts. */
  lemma BlanksInFront(l: string, s: string)
    requires AllSpace(l)
    ensures TrimmedParts(Split(l + s, ',')) == TrimmedParts(Split(s, ','))
  {
    BlanksAreFree(l, ',');
    var first, rest := SplitCases(s, ',');
    if ',' in s {
      Surrounded(l, first, [','], rest, "");
      assert l + s + "" == l + s && rest + "" == rest;
      SplitFirst(l + first, ',', rest);
      FirstPart(l + first, Split(rest, ','));
      FirstPart(first, Split(rest, ','));
      BlanksMore(l, first, "");
    } else {
      SplitFree(l + s, ',');
      BlanksMore(l, s, "");
    }
  }

  lemma {:induction false} BlanksBehind(s: string, r: string)
    requires AllSpace(r)
    ensures TrimmedParts(Split(s + r, ',')) == TrimmedParts(Split(s, ','))
    decreases |s|
  {
    BlanksAreFree(r, ',');
    var first, rest := SplitCases(s, ',');
    if ',' in s {
      assert s + r == first + [','] + (rest + r);
      SplitFirst(first, ',', rest + r);
      BlanksBehind(rest, r);
      FirstPart(first, Split(rest + r, ','));
      FirstPart(first, Split(rest, ','));
    } else {
      SplitFree(s + r, ',');
      BlanksMore("", s, r);
    }
  }

  lemma PrivsOfWhole(s: string)
    ensures PrivsIn(s) == TrimmedParts(Split(s, ','))
  {
    var l, r := TrimSpaceLeaves(s);
    BlanksBehind(l + TrimSpace(s), r);
    BlanksInFront(l, TrimSpace(s));
  }

  lemma {:induction false} PartsOfShown(ps: seq<Padded>)
    requires forall p :: p in ps ==> WellPadded(p)
    ensures TrimmedParts(ShownAll(ps)) == Named(ps)
  {
    if ps != [] {
      var front, last := ps[..|ps| - 1], ps[|ps| - 1];
      assert last in ps;
      PartsOfShown(front);
      TrimSpaceIs(last.before, last.text, last.after);
      assert ShownAll(ps)[..|ps| - 1] == ShownAll(front);
    }
  }

  lemma PrivsOfShown(ps: seq<Padded>)
    requires ps != [] && forall p :: p in ps ==> WellPadded(p) && ',' !in p.text
    ensures PrivsIn(Join(ShownAll(ps), ',')) == Named(ps)
  {
    var parts := ShownAll(ps);
    forall s | s in parts ensures ',' !in s {
      var i :| 0 <= i < |ps| && parts[i] == s;
      assert ps[i] in ps;
      ShownIsFree(ps[i], ',');
    }
    SplitOfJoin(parts, ',');
    PrivsOfWhole(Join(parts, ','));
    PartsOfShown(ps);
  }

  lemma SameCut(a: string, x: string, b: string, y: string, c: char)
    requires a + [c] + x == b + [c] + y && c !in a && c !in b
    ensures a == b && x == y
  {
    IndexCharIs(a, c, x);
    IndexCharIs(b, c, y);
    var s := a + [c] + x;
    assert s[..|a|] == a && s[|a| + 1..] == x;
    assert (b + [c] + y)[..|b|] == b && (b + [c] + y)[|b| + 1..] == y;
  }

  /** Cutting a text after its outer blanks are gone gives the same parts, but for blanks. */
  lemma CutTrimmed(s: string, left: string, right: string, c: char)
    requires s == left + [c] + right && c !in left && !IsSpace(c)
    ensures var cut := Cut(TrimSpace(s), c);
            cut.Some? && TrimSpace(cut.value.left) == TrimSpace(left) && TrimSpace(cut.value.right) == TrimSpace(right)
  {
    var l, r := TrimSpaceLeaves(s);
    var t := TrimSpace(s);
    BlanksAreFree(l, c);
    BlanksAreFree(r, c);
    assert s[|left|] == c;
    assert c in t;
    CutParts(t, c);
    var x, y := Cut(t, c).value.left, Cut(t, c).value.right;
    Surrounded(l, x, [c], y, r);
    SameCut(l + x, y + r, left, right, c);
    BlanksMore(l, x, "");
    BlanksMore("", y, r);
  }

  lemma TargetOfShown(schema: Padded, table: Padded)
    requires WellPadded(schema) && WellPadded(table) && '.' !in schema.text
    ensures var cut := Cut(TrimSpace(Shown(schema) + "." + Shown(table)), '.');
            cut.Some? && TrimSpace(cut.value.left) == schema.text && TrimSpace(cut.value.right) == table.text
  {
    ShownIsFree(schema, '.');
    CutTrimmed(Shown(schema) + "." + Shown(table), Shown(schema), Shown(table), '.');
    TrimSpaceIs(schema.before, schema.text, schema.after);
    TrimSpaceIs(table.before, table.text, table.after);
  }

  /** A grant string means what its author put down, whatever the blanks. */
  lemma SourceParses(w: Source)
    requires WellFormed(w)
    ensures GrantIn(TextOf(w)) == Meaning(w)
  {
    var left, right := Shown(w.schema) + "." + Shown(w.table), Join(ShownAll(w.privs), ',');
    ShownIsFree(w.schema, ':');
    ShownIsFree(w.table, ':');
    CutReadsBack(left, ':', right);
    assert TextOf(w) == left + [':'] + right;
    TargetOfShown(w.schema, w.table);
    PrivsOfShown(w.privs);
  }

  /** Every string without a colon is refused for that, every other one without a dot before
      its first colon for that; all the rest can be put down in that way. */
  lemma GrantsExactly(s: string) returns (left: string, right: string, w: Source)
    ensures if ':' !in s then GrantIn(s) == Bad(NoColon)
            else
              && s == left + ":" + right && ':' !in left
              && if '.' !in left then GrantIn(s) == Bad(NoDot)
                 else WellFormed(w) && TextOf(w) == s && GrantIn(s) == Meaning(w)
  {
    w := Source(Padded("", "", ""), Padded("", "", ""), []);
    left, right := "", "";
    if ':' in s {
      CutParts(s, ':');
      left, right := Cut(s, ':').value.left, Cut(s, ':').value.right;
      if '.' in left {
        w := SourceOf(left, right);
        SourceParses(w);
      } else {
        TrimKeeps(left, '.');
      }
    }
  }

  lemma SourceOf(left: string, right: string) returns (w: Source)
    requires ':' !in left && '.' in left
    ensures WellFormed(w) && TextOf(w) == left + ":" + right
  {
    CutParts(left, '.');
    var schema := Pad(Cut(left, '.').value.left);
    var table := Pad(Cut(left, '.').value.right);
    SplitPartsAreFree(right, ',');
    var privs := PadAll(Split(right, ','));
    forall p | p in privs ensures WellPadded(p) && ',' !in p.text {
      var i :| 0 <= i < |privs| && privs[i] == p;
      TrimKeeps(Split(right, ',')[i], ',');
    }
    JoinOfSplit(right, ',');
    w := Source(schema, table, privs);
  }

  // -------------------------------------------------------------- identifiers

  const QUOTE := '\"'

  function DoubledChar(c: char): string {
    if c == QUOTE then [QUOTE, QUOTE] else [c]
  }

  /** `strings.ReplaceAll` of one quote by two. */
  function Doubled(name: string): string {
    if name == "" then "" else DoubledChar(name[0]) + Doubled(name[1..])
  }

  /** `PgIdent`. */
  function PgIdent(name: string): string {
    [QUOTE] + Doubled(name) + [QUOTE]
  }

  /** An identifier read off the front of a text, and what follows it. */
  datatype Token = Token(name: string, rest: string)

  /** The rule of section 4.1.1 of the PostgreSQL documentation: any characters between
      double quotes, a quote itself written as two. */
  function LexQuoted(text: string): Option<Token> {
    if text != "" && text[0] == QUOTE then LexBody(text[1..]) else None
  }

  function LexBody(text: string): Option<Token>
    decreases |text|
  {
    if text == "" then None
    else if text[0] == QUOTE && (|text| == 1 || text[1] != QUOTE) then Some(Token("", text[1..]))
    else
      var width := if text[0] == QUOTE then 2 else 1;
      match LexBody(text[width..])
      case None => None
      case Some(t) => Some(Token([text[0]] + t.name, t.rest))
  }

  function Prefixed(name: string, t: Option<Token>): Option<Token> {
    match t
    case None => None
    case Some(t) => Some(Token(name + t.name, t.rest))
  }

  /** Doubling is undone by the lexer, whatever follows. */
  lemma {:induction false} LexDoubled(name: string, text: string)
    ensures LexBody(Doubled(name) + text) == Prefixed(name, LexBody(text))
  {
    if name == "" {
      LexNothing(text);
    } else {
      LexDoubled(name[1..], text);
      LexFirst(name, text);
    }
  }

  lemma LexNothing(text: string)
    ensures LexBody(Doubled("") + text) == Prefixed("", LexBody(text))
  {
    assert "" + text == text;
    if LexBody(text).Some? {
      assert "" + LexBody(text).value.name == LexBody(text).value.name;
    }
  }

  lemma LexFirst(name: string, text: string)
    requires name != "" && LexBody(Doubled(name[1..]) + text) == Prefixed(name[1..], LexBody(text))
    ensures LexBody(Doubled(name) + text) == Prefixed(name, LexBody(text))
  {
    DoubledFirst(name, text);
    LexOne(name[0], Doubled(name[1..]) + text);
    PrefixedTwice(name, LexBody(text));
  }

  lemma DoubledFirst(name: string, text: string)
    requires name != ""
    ensures Doubled(name) + text == DoubledChar(name[0]) + (Doubled(name[1..]) + text)
  {
    Regrouped(DoubledChar(name[0]), Doubled(name[1..]), text);
  }

  lemma LexOne(c: char, tail: string)
    ensures LexBody(DoubledChar(c) + tail) == Prefixed([c], LexBody(tail))
  {
    assert (DoubledChar(c) + tail)[|DoubledChar(c)|..] == tail;
  }

  lemma PrefixedTwice(name: string, t: Option<Token>)
    requires name != ""
    ensures Prefixed([name[0]], Prefixed(name[1..], t)) == Prefixed(name, t)
  {
    if t.Some? {
      assert [name[0]] + (name[1..] + t.value.name) == name + t.value.name;
    }
  }

  /** The lexer reads a quoted name back, exactly when no quote follows it: that one would
      continue the identifier. */
  lemma PgIdentExactly(name: string, rest: string)
    ensures LexQuoted(PgIdent(name) + rest) == Some(Token(name, rest)) <==> rest == "" || rest[0] != QUOTE
  {
    var text := [QUOTE] + rest;
    assert (PgIdent(name) + rest)[1..] == Doubled(name) + text;
    LexDoubled(name, text);
    assert text[1..] == rest;
    if rest == "" || rest[0] != QUOTE {
      assert name + "" == name;
    } else if LexBody(text).Some? {
      assert LexBody(text).value.name != "";
      assert |name + LexBody(text).value.name| > |name|;
    }
  }

  /** The names of a GRANT … ON schema.table TO user statement are read as the names given,
      and the text between them as it stands. */
  lemma GrantStatementReads(schema: string, table: string, user: string)
    ensures var tail := PgIdent(table) + (" TO " + PgIdent(user));
            && LexQuoted(PgIdent(schema) + ("." + tail)) == Some(Token(schema, "." + tail))
            && LexQuoted(tail) == Some(Token(table, " TO " + PgIdent(user)))
            && LexQuoted(PgIdent(user) + "") == Some(Token(user, ""))
  {
    var tail := PgIdent(table) + (" TO " + PgIdent(user));
    PgIdentExactly(schema, "." + tail);
    PgIdentExactly(table, " TO " + PgIdent(user));
    PgIdentExactly(user, "");
  }
}
