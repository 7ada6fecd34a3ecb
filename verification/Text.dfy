/**
 The string operations the agent borrows from Go's `strings`, `strconv` and `bufio`
 packages, each with the facts the other modules need.  A string is a sequence of
 characters; on the wire a character is one byte.
 */
module Text {

  datatype Option<+T> = None | Some(value: T)

  // ---------------------------------------------------------------- searching

  predicate OccursAt(s: string, p: string, i: int) {
    0 <= i <= |s| - |p| && s[i..i + |p|] == p
  }

  /** The least occurrence of `p` at or after `from`, or -1. */
  function IndexFrom(s: string, p: string, from: nat): (r: int)
    ensures r == -1 || from <= r
    ensures r >= 0 ==> OccursAt(s, p, r) && forall i :: from <= i < r ==> !OccursAt(s, p, i)
    ensures r == -1 ==> forall i :: from <= i ==> !OccursAt(s, p, i)
    decreases |s| - from
  {
    if from > |s| - |p| then -1
    else if s[from..from + |p|] == p then from
    else if from == |s| then -1
    else IndexFrom(s, p, from + 1)
  }

  /** `strings.Index`. */
  function Index(s: string, p: string): (r: int)
    ensures r == -1 || 0 <= r
    ensures r >= 0 ==> OccursAt(s, p, r) && forall i :: 0 <= i < r ==> !OccursAt(s, p, i)
    ensures r == -1 ==> forall i :: !OccursAt(s, p, i)
  {
    IndexFrom(s, p, 0)
  }

  lemma IndexIs(s: string, p: string, i: nat)
    requires OccursAt(s, p, i)
    requires forall j :: 0 <= j < i ==> !OccursAt(s, p, j)
    ensures Index(s, p) == i
  {
    var r := Index(s, p);
    assert r != -1;
    assert !(r < i);
  }

  /** `strings.LastIndex`. */
  function LastIndex(s: string, p: string): (r: int)
    ensures r == -1 || 0 <= r
    ensures r >= 0 ==> OccursAt(s, p, r) && forall i :: r < i ==> !OccursAt(s, p, i)
    ensures r == -1 ==> forall i :: !OccursAt(s, p, i)
  {
    LastIndexUpTo(s, p, |s|)
  }

  function LastIndexUpTo(s: string, p: string, bound: int): (r: int)
    requires -1 <= bound <= |s|
    ensures r == -1 || 0 <= r
    ensures r >= 0 ==> OccursAt(s, p, r) && forall i :: r < i <= bound ==> !OccursAt(s, p, i)
    ensures r == -1 ==> forall i :: i <= bound ==> !OccursAt(s, p, i)
    decreases bound
  {
    if bound < 0 then -1
    else if bound <= |s| - |p| && s[bound..bound + |p|] == p then bound
    else LastIndexUpTo(s, p, bound - 1)
  }

  lemma LastIndexIs(s: string, p: string, i: nat)
    requires OccursAt(s, p, i)
    requires forall j :: i < j ==> !OccursAt(s, p, j)
    ensures LastIndex(s, p) == i
  {
    var r := LastIndex(s, p);
    assert r != -1;
    assert !(r > i);
  }

  predicate Contains(s: string, p: string) {
    Index(s, p) >= 0
  }

  /** `strings.Index` for a one-character needle. */
  function IndexChar(s: string, c: char): (r: int)
    ensures -1 <= r < |s|
    ensures r >= 0 ==> s[r] == c && forall k :: 0 <= k < r ==> s[k] != c
    ensures r == -1 <==> c !in s
  {
    IndexCharFrom(s, c, 0)
  }

  function IndexCharFrom(s: string, c: char, from: nat): (r: int)
    requires from <= |s|
    ensures r == -1 || from <= r < |s|
    ensures r >= 0 ==> s[r] == c && forall k :: from <= k < r ==> s[k] != c
    ensures r == -1 ==> forall k :: from <= k < |s| ==> s[k] != c
    decreases |s| - from
  {
    if from == |s| then -1 else if s[from] == c then from else IndexCharFrom(s, c, from + 1)
  }

  lemma IndexCharIs(a: string, c: char, b: string)
    requires c !in a
    ensures IndexChar(a + [c] + b, c) == |a|
  {
    var s := a + [c] + b;
    assert s[|a|] == c;
    assert forall k :: 0 <= k < |a| ==> s[k] == a[k] && a[k] in a;
  }

  /** `strings.LastIndex` for a one-character needle. */
  function LastIndexChar(s: string, c: char): (r: int)
    ensures -1 <= r < |s|
    ensures r >= 0 ==> s[r] == c && forall k :: r < k < |s| ==> s[k] != c
    ensures r == -1 ==> c !in s
  {
    var r := LastIndex(s, [c]);
    assert r >= 0 ==> s[r] == s[r..r + 1][0];
    assert forall k :: 0 <= k < |s| && s[k] == c ==> s[k..k + 1] == [c] && OccursAt(s, [c], k);
    r
  }

  lemma LastIndexCharIs(a: string, c: char, b: string)
    requires c !in b
    ensures LastIndexChar(a + [c] + b, c) == |a|
  {
    var s := a + [c] + b;
    assert s[|a|] == c;
    forall k | |a| < k < |s| ensures s[k] != c {
      assert s[k] == b[k - |a| - 1];
    }
  }

  // ---------------------------------------------------------- split and join

  /** `strings.Split` with a one-character separator. */
  function Split(s: string, c: char): (parts: seq<string>)
    ensures |parts| >= 1
    decreases |s|
  {
    var i := IndexChar(s, c);
    if i == -1 then [s] else [s[..i]] + Split(s[i + 1..], c)
  }

  /** `strings.Join` with a one-character separator. */
  function Join(parts: seq<string>, c: char): string {
    if |parts| == 0 then ""
    else if |parts| == 1 then parts[0]
    else parts[0] + [c] + Join(parts[1..], c)
  }

  lemma SplitFirst(a: string, c: char, b: string)
    requires c !in a
    ensures Split(a + [c] + b, c) == [a] + Split(b, c)
  {
    var s := a + [c] + b;
    IndexCharIs(a, c, b);
    assert s[..|a|] == a && s[|a| + 1..] == b;
  }

  lemma SplitCases(s: string, c: char) returns (first: string, rest: string)
    ensures c !in s ==> Split(s, c) == [s]
    ensures c in s ==> c !in first && s == first + [c] + rest && Split(s, c) == [first] + Split(rest, c)
  {
    var i := IndexChar(s, c);
    if i >= 0 {
      first, rest := s[..i], s[i + 1..];
      assert s == first + [c] + rest;
    } else {
      first, rest := "", "";
    }
  }

  lemma {:induction false} SplitPartsAreFree(s: string, c: char)
    ensures forall p :: p in Split(s, c) ==> c !in p
    decreases |s|
  {
    var first, rest := SplitCases(s, c);
    if c in s {
      SplitPartsAreFree(rest, c);
    }
  }

  lemma {:induction false} SplitOfJoin(parts: seq<string>, c: char)
    requires |parts| >= 1
    requires forall p :: p in parts ==> c !in p
    ensures Split(Join(parts, c), c) == parts
  {
    if |parts| > 1 {
      SplitOfJoin(parts[1..], c);
      JoinFirst(parts, c);
      SplitFirst(parts[0], c, Join(parts[1..], c));
    } else {
      SplitFree(parts[0], c);
    }
  }

  /** Joining what was split gives the text back. */
  lemma {:induction false} JoinOfSplit(s: string, c: char)
    ensures Join(Split(s, c), c) == s
    decreases |s|
  {
    var first, rest := SplitCases(s, c);
    if c in s {
      JoinOfSplit(rest, c);
      JoinFirst([first] + Split(rest, c), c);
    }
  }

  lemma JoinFirst(parts: seq<string>, c: char)
    requires |parts| > 1
    ensures Join(parts, c) == parts[0] + [c] + Join(parts[1..], c)
    ensures [parts[0]] + parts[1..] == parts
  {
  }

  lemma SplitFree(s: string, c: char)
    requires c !in s
    ensures Split(s, c) == [s]
  {
  }

  /** Splitting what was joined gives the list back exactly when it is non-empty and
      no element contains the separator. */
  lemma SplitInvertsJoinExactly(parts: seq<string>, c: char)
    ensures Split(Join(parts, c), c) == parts
            <==> |parts| >= 1 && forall p :: p in parts ==> c !in p
  {
    SplitPartsAreFree(Join(parts, c), c);
    if |parts| >= 1 && forall p :: p in parts ==> c !in p {
      SplitOfJoin(parts, c);
    }
  }

  function Last<T>(xs: seq<T>): T
    requires |xs| > 0
  {
    xs[|xs| - 1]
  }

  /** The last part is the text after the last separator, `before` what precedes that. */
  lemma {:induction false} LastOfSplit(s: string, c: char) returns (before: string)
    ensures c !in Last(Split(s, c))
    ensures if c in s then s == before + [c] + Last(Split(s, c)) else s == Last(Split(s, c))
    decreases |s|
  {
    var first, rest := SplitCases(s, c);
    before := first;
    if c in s {
      var b := LastOfSplit(rest, c);
      before := LastAfterFirst(first, c, rest, Split(rest, c), b);
    }
  }

  lemma LastAfterFirst(first: string, c: char, rest: string, parts: seq<string>, b: string) returns (before: string)
    requires |parts| > 0
    requires if c in rest then rest == b + [c] + Last(parts) else rest == Last(parts)
    ensures Last([first] + parts) == Last(parts)
    ensures first + [c] + rest == before + [c] + Last(parts)
  {
    before := if c in rest then first + [c] + b else first;
  }

  // ---------------------------------------------------------------- trimming

  /** `unicode.IsSpace`. */
  predicate IsSpace(c: char) {
    var n := c as int;
    9 <= n <= 13 || n == 0x20 || n == 0x85 || n == 0xA0 || n == 0x1680 || 0x2000 <= n <= 0x200A
    || n == 0x2028 || n == 0x2029 || n == 0x202F || n == 0x205F || n == 0x3000
  }

  /** The first position from `i` on that holds no space. */
  function SpacesTo(s: string, i: nat): (k: nat)
    requires i <= |s|
    ensures i <= k <= |s|
    ensures forall j :: i <= j < k ==> IsSpace(s[j])
    ensures k < |s| ==> !IsSpace(s[k])
    decreases |s| - i
  {
    if i == |s| || !IsSpace(s[i]) then i else SpacesTo(s, i + 1)
  }

  function TrimLeft(s: string): (r: string)
    ensures r != "" ==> !IsSpace(r[0])
  {
    s[SpacesTo(s, 0)..]
  }

  /** The end of the text before the spaces that reach up to `i`. */
  function SpacesBack(s: string, i: nat): (k: nat)
    requires i <= |s|
    ensures k <= i
    ensures forall j :: k <= j < i ==> IsSpace(s[j])
    ensures k > 0 ==> !IsSpace(s[k - 1])
  {
    if i == 0 || !IsSpace(s[i - 1]) then i else SpacesBack(s, i - 1)
  }

  function TrimRight(s: string): (r: string)
    ensures r <= s
    ensures r != "" ==> !IsSpace(r[|r| - 1])
  {
    s[..SpacesBack(s, |s|)]
  }

  /** Nothing for `strings.TrimSpace` to remove. */
  predicate Trimmed(s: string) {
    s == "" || (!IsSpace(s[0]) && !IsSpace(s[|s| - 1]))
  }

  /** `strings.TrimSpace`. */
  function TrimSpace(s: string): (r: string)
    ensures Trimmed(r)
    ensures Trimmed(s) ==> r == s
  {
    TrimRight(TrimLeft(s))
  }

  lemma TrimKeeps(s: string, c: char)
    ensures c !in s ==> c !in TrimSpace(s)
  {
    var l := TrimLeft(s);
    var r := TrimRight(l);
    assert c in r ==> c in l;
    assert c in l ==> c in s;
  }

  predicate AllSpace(s: string) {
    forall c :: c in s ==> IsSpace(c)
  }

  lemma TrimLeftIs(l: string, p: string)
    requires AllSpace(l) && (p == "" || !IsSpace(p[0]))
    ensures TrimLeft(l + p) == p
  {
    var s := l + p;
    var k := SpacesTo(s, 0);
    assert forall j :: 0 <= j < |l| ==> s[j] == l[j] && l[j] in l;
    assert p != "" ==> s[|l|] == p[0];
    assert k == |l|;
    assert s[|l|..] == p;
  }

  lemma TrimRightIs(p: string, r: string)
    requires AllSpace(r) && (p == "" || !IsSpace(p[|p| - 1]))
    ensures TrimRight(p + r) == p
  {
    var s := p + r;
    var k := SpacesBack(s, |s|);
    assert forall j :: |p| <= j < |s| ==> s[j] == r[j - |p|] && r[j - |p|] in r;
    assert p != "" ==> s[|p| - 1] == p[|p| - 1];
    assert k == |p|;
    assert s[..|p|] == p;
  }

  /** Trimming removes the spaces on both sides, and nothing else. */
  lemma TrimSpaceIs(l: string, p: string, r: string)
    requires AllSpace(l) && AllSpace(r) && Trimmed(p)
    ensures TrimSpace(l + p + r) == p
  {
    if p == "" {
      assert l + p + r == (l + r) + "";
      TrimLeftIs(l + r, "");
    } else {
      assert l + p + r == l + (p + r);
      assert (p + r)[0] == p[0];
      TrimLeftIs(l, p + r);
      TrimRightIs(p, r);
    }
  }

  lemma TrimLeftLeaves(s: string) returns (l: string)
    ensures AllSpace(l) && s == l + TrimLeft(s)
  {
    l := s[..SpacesTo(s, 0)];
  }

  lemma TrimRightLeaves(s: string) returns (r: string)
    ensures AllSpace(r) && s == TrimRight(s) + r
  {
    r := s[SpacesBack(s, |s|)..];
  }

  lemma TrimSpaceLeaves(s: string) returns (l: string, r: string)
    ensures AllSpace(l) && AllSpace(r) && s == l + TrimSpace(s) + r
  {
    l := TrimLeftLeaves(s);
    r := TrimRightLeaves(TrimLeft(s));
    Regrouped(l, TrimSpace(s), r);
  }

  /** A text with blanks around it. */
  datatype Padded = Padded(before: string, text: string, after: string)

  function Shown(p: Padded): string {
    p.before + p.text + p.after
  }

  predicate WellPadded(p: Padded) {
    AllSpace(p.before) && AllSpace(p.after) && Trimmed(p.text)
  }

  function ShownAll(ps: seq<Padded>): (r: seq<string>)
    ensures |r| == |ps| && forall i :: 0 <= i < |ps| ==> r[i] == Shown(ps[i])
  {
    if ps == [] then [] else ShownAll(ps[..|ps| - 1]) + [Shown(ps[|ps| - 1])]
  }

  lemma BlanksAreFree(s: string, c: char)
    requires AllSpace(s) && !IsSpace(c)
    ensures c !in s
  {
  }

  lemma ShownIsFree(p: Padded, c: char)
    requires WellPadded(p) && !IsSpace(c) && c !in p.text
    ensures c !in Shown(p)
  {
    BlanksAreFree(p.before, c);
    BlanksAreFree(p.after, c);
  }

  lemma BlanksMore(l: string, x: string, r: string)
    requires AllSpace(l) && AllSpace(r)
    ensures TrimSpace(l + x) == TrimSpace(x) && TrimSpace(x + r) == TrimSpace(x)
  {
    var a, b := TrimSpaceLeaves(x);
    var p := TrimSpace(x);
    assert l + x == (l + a) + p + b;
    TrimSpaceIs(l + a, p, b);
    assert x + r == a + p + (b + r);
    TrimSpaceIs(a, p, b + r);
  }

  lemma Pad(s: string) returns (p: Padded)
    ensures WellPadded(p) && Shown(p) == s && forall c :: c !in s ==> c !in p.text
  {
    var l, r := TrimSpaceLeaves(s);
    p := Padded(l, TrimSpace(s), r);
    forall c | c !in s ensures c !in p.text {
      TrimKeeps(s, c);
    }
  }

  lemma {:induction false} PadAll(parts: seq<string>) returns (ps: seq<Padded>)
    ensures |ps| == |parts| && ShownAll(ps) == parts
    ensures forall i :: 0 <= i < |ps| ==> WellPadded(ps[i]) && ps[i].text == TrimSpace(parts[i])
  {
    ps := [];
    if parts != [] {
      var front := PadAll(parts[..|parts| - 1]);
      var l, r := TrimSpaceLeaves(parts[|parts| - 1]);
      ps := front + [Padded(l, TrimSpace(parts[|parts| - 1]), r)];
      assert ps[..|ps| - 1] == front;
      assert parts == parts[..|parts| - 1] + [parts[|parts| - 1]];
    }
  }

  // ------------------------------------------------------------------- lines

  function DropCR(s: string): (r: string)
    ensures r <= s
  {
    if s != "" && s[|s| - 1] == '\r' then s[..|s| - 1] else s
  }

  /** The tokens of a `bufio.Scanner` in its default line mode. */
  function ScanLines(s: string): (ls: seq<string>)
    ensures forall l :: l in ls ==> '\n' !in l
    decreases |s|
  {
    if s == "" then []
    else
      var i := IndexChar(s, '\n');
      if i == -1 then [DropCR(s)] else [DropCR(s[..i])] + ScanLines(s[i + 1..])
  }

  /** What stands between the newlines of a text; nothing follows a newline at its end. */
  function Between(s: string): seq<string> {
    var parts := Split(s, '\n');
    if Last(parts) == "" then parts[..|parts| - 1] else parts
  }

  lemma BetweenCases(s: string) returns (first: string, rest: string)
    ensures '\n' !in s ==> Between(s) == if s == "" then [] else [s]
    ensures '\n' in s ==> '\n' !in first && s == first + "\n" + rest && Between(s) == [first] + Between(rest)
  {
    first, rest := SplitCases(s, '\n');
    if '\n' in s {
      var parts := Split(rest, '\n');
      assert Split(s, '\n') == [first] + parts;
      assert ([first] + parts)[..|parts|] == [first] + parts[..|parts| - 1];
      assert s == first + "\n" + rest;
    }
  }

  /** The scanner yields just that, line by line, without a carriage return at the end. */
  lemma {:induction false} ScanIsBetween(s: string)
    ensures |ScanLines(s)| == |Between(s)|
    ensures forall i :: 0 <= i < |ScanLines(s)| ==> ScanLines(s)[i] == DropCR(Between(s)[i])
    decreases |s|
  {
    var first, rest := BetweenCases(s);
    if '\n' in s {
      ScanFirst(first, rest);
      ScanIsBetween(rest);
    }
  }

  /** Every line followed by a newline. */
  function Unlines(ls: seq<string>): string {
    if ls == [] then "" else ls[0] + "\n" + Unlines(ls[1..])
  }

  /** Lines that survive printing: no newline inside, no carriage return at the end. */
  predicate Printable(l: string) {
    '\n' !in l && DropCR(l) == l
  }

  lemma ScanFirst(l: string, rest: string)
    requires '\n' !in l
    ensures ScanLines(l + "\n" + rest) == [DropCR(l)] + ScanLines(rest)
  {
    var s := l + "\n" + rest;
    IndexCharIs(l, '\n', rest);
    assert s == l + ['\n'] + rest;
    assert s[..|l|] == l && s[|l| + 1..] == rest;
  }

  lemma {:induction false} ScanOfUnlines(ls: seq<string>)
    requires forall l :: l in ls ==> Printable(l)
    ensures ScanLines(Unlines(ls)) == ls
  {
    if ls == [] {
    } else {
      assert Printable(ls[0]);
      ScanFirst(ls[0], Unlines(ls[1..]));
      ScanOfUnlines(ls[1..]);
    }
  }

  lemma {:induction false} UnlinesConcat(a: seq<string>, b: seq<string>)
    ensures Unlines(a + b) == Unlines(a) + Unlines(b)
  {
    if a == [] {
      assert a + b == b;
    } else {
      assert (a + b)[1..] == a[1..] + b;
      UnlinesConcat(a[1..], b);
    }
  }

  // ----------------------------------------------------------------- numbers

  predicate IsDigit(c: char) {
    '0' <= c <= '9'
  }

  predicate AllDigits(s: string) {
    forall c :: c in s ==> IsDigit(c)
  }

  function DigitsValue(s: string): nat
    requires AllDigits(s)
  {
    if s == "" then 0
    else
      assert s[|s| - 1] in s;
      DigitsValue(s[..|s| - 1]) * 10 + (s[|s| - 1] as int - '0' as int)
  }

  /** The decimal numeral `%d` prints. */
  function Decimal(n: nat): (s: string)
    ensures s != "" && AllDigits(s)
    ensures DigitsValue(s) == n
  {
    var last := ('0' as int + n % 10) as char;
    if n < 10 then
      assert [last][..0] == "";
      [last]
    else
      var r := Decimal(n / 10) + [last];
      assert r[..|r| - 1] == Decimal(n / 10);
      r
  }

  const INT64_MAX: int := 0x7FFF_FFFF_FFFF_FFFF

  /** `strconv.Atoi`: an optional sign, at least one digit, and a value in 64 bits. */
  function Atoi(s: string): Option<int> {
    var neg := s != "" && s[0] == '-';
    var digits := if s != "" && (s[0] == '-' || s[0] == '+') then s[1..] else s;
    if digits == "" || !AllDigits(digits) then None
    else
      var v: int := DigitsValue(digits);
      if neg then (if v > INT64_MAX + 1 then None else Some(-v))
      else (if v > INT64_MAX then None else Some(v))
  }

  lemma AtoiOfDecimal(n: nat)
    requires n <= INT64_MAX
    ensures Atoi(Decimal(n)) == Some(n)
    ensures ':' !in Decimal(n) && '-' !in Decimal(n)
  {
    assert Decimal(n)[0] in Decimal(n);
  }

  // ---------------------------------------------------------- lists and case

  function Filter<T(!new)>(xs: seq<T>, keep: T -> bool): (r: seq<T>)
    ensures forall x :: x in r <==> x in xs && keep(x)
  {
    if xs == [] then []
    else (if keep(xs[0]) then [xs[0]] else []) + Filter(xs[1..], keep)
  }

  lemma LastApart<T>(a: seq<T>, b: seq<T>)
    requires b != []
    ensures a + b == (a + b[..|b| - 1]) + [b[|b| - 1]]
  {
  }

  lemma Regrouped<T>(a: seq<T>, b: seq<T>, c: seq<T>)
    ensures a + b + c == a + (b + c)
  {
  }

  lemma {:induction false} FilterConcat<T(!new)>(a: seq<T>, b: seq<T>, keep: T -> bool)
    ensures Filter(a + b, keep) == Filter(a, keep) + Filter(b, keep)
  {
    if a == [] {
      assert a + b == b;
    } else {
      assert (a + b)[1..] == a[1..] + b;
      FilterConcat(a[1..], b, keep);
    }
  }

  lemma {:induction false} FilterAll<T(!new)>(xs: seq<T>, keep: T -> bool)
    requires forall x :: x in xs ==> keep(x)
    ensures Filter(xs, keep) == xs
  {
    if xs != [] {
      FilterAll(xs[1..], keep);
    }
  }

  function LowerChar(c: char): char {
    if 'A' <= c <= 'Z' then (c as int + 32) as char else c
  }

  function UpperChar(c: char): char {
    if 'a' <= c <= 'z' then (c as int - 32) as char else c
  }

  /** `strings.ToLower` on ASCII text. */
  function ToLower(s: string): (r: string)
    ensures |r| == |s| && forall i :: 0 <= i < |s| ==> r[i] == LowerChar(s[i])
  {
    seq(|s|, i requires 0 <= i < |s| => LowerChar(s[i]))
  }

  /** `strings.ToUpper` on ASCII text. */
  function ToUpper(s: string): (r: string)
    ensures |r| == |s| && forall i :: 0 <= i < |s| ==> r[i] == UpperChar(s[i])
  {
    seq(|s|, i requires 0 <= i < |s| => UpperChar(s[i]))
  }
}
