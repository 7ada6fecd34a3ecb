/** Rewriting of credentials in line-oriented configuration text. */
module Credentials {
  import opened Text

  // --------------------------------------------------- rewriting line by line

  function MapLines(ls: seq<string>, f: string -> string): (r: seq<string>)
    ensures |r| == |ls| && forall i :: 0 <= i < |ls| ==> r[i] == f(ls[i])
  {
    if ls == [] then [] else [f(ls[0])] + MapLines(ls[1..], f)
  }

  /** What both rewriting loops compute for some function on lines. */
  function Rewritten(content: string, f: string -> string): string {
    Unlines(MapLines(ScanLines(content), f))
  }

  ghost predicate MakesLines(f: string -> string) {
    forall l :: '\n' !in l ==> '\n' !in f(l)
  }

  lemma {:induction false} ScanOfPrinted(ls: seq<string>)
    requires forall l :: l in ls ==> '\n' !in l
    ensures ScanLines(Unlines(ls)) == MapLines(ls, DropCR)
  {
    if ls != [] {
      ScanFirst(ls[0], Unlines(ls[1..]));
      ScanOfPrinted(ls[1..]);
    }
  }

  lemma {:induction false} PrintedOnce(a: seq<string>, b: seq<string>)
    requires |a| == |b| && Unlines(a) == Unlines(b)
    requires forall l :: l in a || l in b ==> '\n' !in l
    ensures a == b
  {
    if a != [] {
      assert a[0] in a && b[0] in b;
      var x, y := Unlines(a[1..]), Unlines(b[1..]);
      IndexCharIs(a[0], '\n', x);
      IndexCharIs(b[0], '\n', y);
      SameHead(a[0], x, b[0], y);
      PrintedOnce(a[1..], b[1..]);
      assert a == [a[0]] + a[1..] && b == [b[0]] + b[1..];
    }
  }

  lemma SameHead(l: string, x: string, m: string, y: string)
    requires l + "\n" + x == m + "\n" + y && |l| == |m|
    ensures l == m && x == y
  {
    var s, t := l + "\n" + x, m + "\n" + y;
    assert s[..|l|] == l && t[..|l|] == m;
    assert s[|l| + 1..] == x && t[|l| + 1..] == y;
  }

  /** A second rewriting makes the first one irrelevant exactly when it does so on every line. */
  lemma RewriteTwice(c: string, f: string -> string, g: string -> string)
    requires MakesLines(f) && MakesLines(g)
    ensures Rewritten(Rewritten(c, f), g) == Rewritten(c, g)
            <==> forall l :: l in ScanLines(c) ==> g(DropCR(f(l))) == g(l)
  {
    var ls := ScanLines(c);
    var once := MapLines(ls, f);
    ScanOfPrinted(once);
    var twice, direct := MapLines(MapLines(once, DropCR), g), MapLines(ls, g);
    assert Rewritten(Rewritten(c, f), g) == Unlines(twice);
    forall i | 0 <= i < |ls| ensures twice[i] == g(DropCR(f(ls[i]))) && '\n' !in twice[i] {
      assert ls[i] in ls && '\n' !in f(ls[i]);
    }
    SameLists(ls, twice, direct, g);
    if Unlines(twice) == Unlines(direct) {
      PrintedOnce(twice, direct);
      forall l | l in ls ensures g(DropCR(f(l))) == g(l) {
        var i :| 0 <= i < |ls| && ls[i] == l;
        assert twice[i] == direct[i];
      }
    } else {
      var i :| 0 <= i < |ls| && twice[i] != direct[i];
      assert ls[i] in ls;
    }
  }

  lemma SameLists(ls: seq<string>, twice: seq<string>, direct: seq<string>, g: string -> string)
    requires |twice| == |direct| == |ls| && MakesLines(g)
    requires direct == MapLines(ls, g) && forall l :: l in ls ==> '\n' !in l
    ensures forall l :: l in direct ==> '\n' !in l
    ensures twice == direct || exists i :: 0 <= i < |ls| && twice[i] != direct[i]
  {
    forall l | l in direct ensures '\n' !in l {
      var i :| 0 <= i < |ls| && direct[i] == l;
      assert ls[i] in ls;
    }
  }

  // -------------------------------------------------------------- passwords

  predicate Marked(line: string) {
    Contains(ToUpper(line), "PASSWORD") || Contains(ToUpper(line), "PASS") || Contains(ToUpper(line), "PWD")
  }

  /** The line up to and with its first equals sign. */
  function Key(line: string): string
    requires '=' in line
  {
    line[..IndexChar(line, '=') + 1]
  }

  function RotatedLine(line: string, password: string): string {
    if Marked(line) && '=' in line then Key(line) + password else line
  }

  function Rotated(content: string, password: string): string {
    Rewritten(content, l => RotatedLine(l, password))
  }

  lemma MapNext(ls: seq<string>, f: string -> string, i: nat)
    requires i < |ls|
    ensures Unlines(MapLines(ls[..i + 1], f)) == Unlines(MapLines(ls[..i], f)) + f(ls[i]) + "\n"
  {
    var a, b := MapLines(ls[..i], f), MapLines(ls[..i + 1], f);
    assert b == a + [f(ls[i])];
    UnlinesConcat(a, [f(ls[i])]);
    assert Unlines([f(ls[i])]) == f(ls[i]) + "\n" + "";
  }

  /** `ReplaceCredentialInContent`; the source ignores the user name. */
  method ReplaceCredentialInContent(content: string, username: string, newPassword: string) returns (sb: string)
    ensures sb == Rotated(content, newPassword)
  {
    var lines := ScanLines(content);
    ghost var f := l => RotatedLine(l, newPassword);
    sb := "";
    for i := 0 to |lines|
      invariant sb == Unlines(MapLines(lines[..i], f))
    {
      MapNext(lines, f, i);
      var line := RotateLine(lines[i], newPassword);
      sb := sb + (line + "\n");
    }
    assert lines[..|lines|] == lines;
  }

  method RotateLine(line: string, newPassword: string) returns (r: string)
    ensures r == RotatedLine(line, newPassword)
  {
    r := line;
    var upper := ToUpper(line);
    if Contains(upper, "PASSWORD") || Contains(upper, "PASS") || Contains(upper, "PWD") {
      var idx := IndexChar(line, '=');
      if idx != -1 {
        r := line[..idx + 1] + newPassword;
      }
    }
  }

  /** The line holds the lower-case word in any mixture of cases. */
  ghost predicate Holds(line: string, word: string) {
    exists i :: HoldsAt(line, word, i)
  }

  predicate HoldsAt(line: string, word: string, i: int) {
    0 <= i <= |line| - |word| && forall k :: 0 <= k < |word| ==> LowerChar(line[i + k]) == word[k]
  }

  ghost predicate HoldsSecretWord(line: string) {
    Holds(line, "password") || Holds(line, "pass") || Holds(line, "pwd")
  }

  /** What a rotation makes of one line: key, equals sign and the new password where the line
      has an equals sign and one of the words, and the line itself everywhere else. */
  ghost predicate IsRotatedLine(line: string, rotated: string, password: string) {
    if HoldsSecretWord(line) && '=' in line then
      exists key, value :: '=' !in key && line == key + "=" + value && rotated == key + "=" + password
    else rotated == line
  }

  ghost predicate IsRotation(content: string, rotated: string, password: string) {
    exists lines: seq<string> ::
      && |lines| == |Between(content)| && rotated == Unlines(lines)
      && forall i :: 0 <= i < |lines| ==> IsRotatedLine(DropCR(Between(content)[i]), lines[i], password)
  }

  lemma UpperOfLetter(c: char, w: char)
    requires 'a' <= w <= 'z'
    ensures UpperChar(c) == UpperChar(w) <==> LowerChar(c) == w
  {
  }

  lemma HoldsAtExactly(line: string, word: string, upper: string, i: int)
    requires |upper| == |word| && forall k :: 0 <= k < |word| ==> 'a' <= word[k] <= 'z' && upper[k] == UpperChar(word[k])
    ensures HoldsAt(line, word, i) <==> OccursAt(ToUpper(line), upper, i)
  {
    if 0 <= i <= |line| - |word| {
      var part := ToUpper(line)[i..i + |word|];
      forall k | 0 <= k < |word| ensures part[k] == upper[k] <==> LowerChar(line[i + k]) == word[k] {
        UpperOfLetter(line[i + k], word[k]);
      }
      if OccursAt(ToUpper(line), upper, i) {
        assert part == upper;
      }
    }
  }

  lemma HoldsExactly(line: string, word: string, upper: string)
    requires |upper| == |word| && forall k :: 0 <= k < |word| ==> 'a' <= word[k] <= 'z' && upper[k] == UpperChar(word[k])
    ensures Holds(line, word) <==> Contains(ToUpper(line), upper)
  {
    forall i ensures HoldsAt(line, word, i) <==> OccursAt(ToUpper(line), upper, i) {
      HoldsAtExactly(line, word, upper, i);
    }
    assert Contains(ToUpper(line), upper) ==> OccursAt(ToUpper(line), upper, Index(ToUpper(line), upper));
  }

  lemma MarkedExactly(line: string)
    ensures Marked(line) <==> HoldsSecretWord(line)
  {
    HoldsExactly(line, "password", "PASSWORD");
    HoldsExactly(line, "pass", "PASS");
    HoldsExactly(line, "pwd", "PWD");
  }

  lemma RotatedLineIs(line: string, password: string)
    ensures IsRotatedLine(line, RotatedLine(line, password), password)
  {
    MarkedExactly(line);
    if Marked(line) && '=' in line {
      var i := IndexChar(line, '=');
      var key := line[..i];
      assert line == key + "=" + line[i + 1..] && Key(line) == key + "=";
    }
  }

  /** Every line between newlines is rotated for itself, and none is lost or added. */
  lemma RotatedIs(content: string, password: string)
    ensures IsRotation(content, Rotated(content, password), password)
  {
    var lines := MapLines(ScanLines(content), l => RotatedLine(l, password));
    ScanIsBetween(content);
    forall i | 0 <= i < |lines| ensures IsRotatedLine(DropCR(Between(content)[i]), lines[i], password) {
      RotatedLineIs(ScanLines(content)[i], password);
    }
    assert Rotated(content, password) == Unlines(lines);
  }

  lemma NoneAcross(x: string, y: string, w: string, i: nat)
    requires i < |x| < i + |w| <= |x + y| && x[|x| - 1] !in w
    ensures (x + y)[i..i + |w|] != w
  {
    var k := |x| - 1 - i;
    assert (x + y)[i..i + |w|][k] == x[|x| - 1];
    assert w[k] in w;
  }

  lemma OccursInPart(x: string, y: string, w: string, i: int)
    requires x != "" && x[|x| - 1] !in w && w != ""
    requires OccursAt(x + y, w, i)
    ensures OccursAt(x, w, i) || OccursAt(y, w, i - |x|)
  {
    var s := x + y;
    if i + |w| <= |x| {
      assert s[i..i + |w|] == x[i..i + |w|];
    } else if i >= |x| {
      assert s[i..i + |w|] == y[i - |x|..i - |x| + |w|];
    } else {
      NoneAcross(x, y, w, i);
    }
  }

  lemma OccursInWhole(x: string, y: string, w: string, i: int)
    ensures OccursAt(x, w, i) ==> OccursAt(x + y, w, i)
    ensures OccursAt(y, w, i) ==> OccursAt(x + y, w, i + |x|)
  {
    var s := x + y;
    if OccursAt(x, w, i) {
      assert s[i..i + |w|] == x[i..i + |w|];
    }
    if OccursAt(y, w, i) {
      assert s[i + |x|..i + |x| + |w|] == y[i..i + |w|];
    }
  }

  lemma ContainsInParts(x: string, y: string, w: string)
    requires x != "" && x[|x| - 1] !in w && w != ""
    ensures Contains(x + y, w) <==> Contains(x, w) || Contains(y, w)
  {
    var i := Index(x + y, w);
    if i >= 0 {
      OccursInPart(x, y, w, i);
    }
    OccursInWhole(x, y, w, Index(x, w));
    OccursInWhole(x, y, w, Index(y, w));
  }

  /** No marker reaches across an equals sign. */
  lemma MarkedInParts(key: string, value: string)
    requires key != "" && key[|key| - 1] == '='
    ensures Marked(key + value) <==> Marked(key) || Marked(value)
  {
    var x, y := ToUpper(key), ToUpper(value);
    assert ToUpper(key + value) == x + y;
    assert x[|x| - 1] == '=';
    ContainsInParts(x, y, "PASSWORD");
    ContainsInParts(x, y, "PASS");
    ContainsInParts(x, y, "PWD");
  }

  lemma KeyFacts(line: string, value: string)
    requires '=' in line
    ensures Key(line) != "" && Key(line)[|Key(line)| - 1] == '='
    ensures '=' in Key(line) + value && Key(Key(line) + value) == Key(line)
    ensures forall c :: c in Key(line) ==> c in line
  {
    var i := IndexChar(line, '=');
    var name := line[..i];
    assert '=' !in name;
    assert Key(line) == name + ['='];
    IndexCharIs(name, '=', value);
    assert name + ['='] + value == Key(line) + value;
    assert (Key(line) + value)[..i + 1] == Key(line);
  }

  /** A line the second of two rotations still gets right: it is rewritten and recognised
      again, by its key or by the first password itself, or it is not touched at all. */
  predicate StaysMarked(line: string, first: string, second: string) {
    if Marked(line) && '=' in line then first == second || Marked(Key(line)) || Marked(first)
    else DropCR(line) == line
  }

  lemma DropCROfRotated(key: string, value: string)
    requires key != "" && key[|key| - 1] == '=' && Printable(value)
    ensures DropCR(key + value) == key + value
  {
    if value != "" {
      assert (key + value)[|key + value| - 1] == value[|value| - 1];
    }
  }

  lemma SameSuffix(key: string, a: string, b: string)
    ensures key + a == key + b <==> a == b
  {
    assert (key + a)[|key|..] == a && (key + b)[|key|..] == b;
  }

  lemma RotateLineTwice(l: string, a: string, b: string)
    requires Printable(a)
    ensures RotatedLine(DropCR(RotatedLine(l, a)), b) == RotatedLine(l, b) <==> StaysMarked(l, a, b)
  {
    if Marked(l) && '=' in l {
      KeyFacts(l, a);
      DropCROfRotated(Key(l), a);
      MarkedInParts(Key(l), a);
      SameSuffix(Key(l), a, b);
    } else if DropCR(l) != l {
      ShorterLine(l, b);
    }
  }

  lemma StillMarked(d: string, more: string)
    ensures Marked(d) ==> Marked(d + more)
  {
    var x, y := ToUpper(d), ToUpper(more);
    assert ToUpper(d + more) == x + y;
    OccursInWhole(x, y, "PASSWORD", Index(x, "PASSWORD"));
    OccursInWhole(x, y, "PASS", Index(x, "PASS"));
    OccursInWhole(x, y, "PWD", Index(x, "PWD"));
  }

  /** Losing a carriage return shows, whatever becomes of the line. */
  lemma ShorterLine(l: string, b: string)
    requires !(Marked(l) && '=' in l) && DropCR(l) != l
    ensures RotatedLine(DropCR(l), b) != l
  {
    var d := DropCR(l);
    assert l == d + ['\r'];
    StillMarked(d, ['\r']);
    assert '=' in d ==> '=' in l;
  }

  /** Rotating twice is rotating once, exactly when every line stays marked: a line found
      only by its old value is lost to the next rotation. */
  lemma RotateTwiceExactly(c: string, a: string, b: string)
    requires Printable(a) && '\n' !in b
    ensures Rotated(Rotated(c, a), b) == Rotated(c, b) <==> forall l :: l in ScanLines(c) ==> StaysMarked(l, a, b)
  {
    var f, g := l => RotatedLine(l, a), l => RotatedLine(l, b);
    RotatedMakesLines(a);
    RotatedMakesLines(b);
    RewriteTwice(c, f, g);
    forall l ensures g(DropCR(f(l))) == g(l) <==> StaysMarked(l, a, b) {
      RotateLineTwice(l, a, b);
    }
  }

  lemma RotatedMakesLines(a: string)
    requires '\n' !in a
    ensures MakesLines(l => RotatedLine(l, a))
  {
    forall l: string | '\n' !in l ensures '\n' !in RotatedLine(l, a) {
      if '=' in l {
        KeyFacts(l, a);
      }
    }
  }

  lemma ScanOne(l: string)
    requires Printable(l)
    ensures ScanLines(l + "\n") == [l]
  {
    assert l + "\n" == l + "\n" + "";
    ScanFirst(l, "");
  }

  lemma RotatedOne(l: string, a: string)
    requires Printable(l)
    ensures Rotated(l + "\n", a) == RotatedLine(l, a) + "\n"
  {
    ScanOne(l);
    var r := MapLines([l], l => RotatedLine(l, a));
    assert r == [RotatedLine(l, a)];
    assert Unlines(r) == RotatedLine(l, a) + "\n" + Unlines([]);
  }

  /** A line that only its value marks: the first rotation hides it from all later ones. */
  lemma RotationHidesLine(name: string, value: string, a: string, b: string)
    requires '=' !in name && Printable(name + "=" + value) && Printable(a)
    requires !Marked(name + "=") && Marked(value) && !Marked(a)
    ensures Rotated(name + "=" + value + "\n", a) == name + "=" + a + "\n"
    ensures Rotated(name + "=" + a + "\n", b) == name + "=" + a + "\n"
  {
    var key := name + "=";
    IndexCharIs(name, '=', value);
    IndexCharIs(name, '=', a);
    assert name + ['='] + value == key + value && name + ['='] + a == key + a;
    assert Key(key + value) == key && Key(key + a) == key;
    MarkedInParts(key, value);
    MarkedInParts(key, a);
    DropCROfRotated(key, a);
    assert Printable(key + a) by {
      assert forall c :: c in key ==> c in key + value;
    }
    RotatedOne(key + value, a);
    RotatedOne(key + a, b);
  }

  lemma NotWithoutFirst(s: string, w: string)
    requires w != "" && w[0] !in s
    ensures !Contains(s, w)
  {
    forall i ensures !OccursAt(s, w, i) {
      if 0 <= i <= |s| - |w| {
        assert s[i..i + |w|][0] == s[i] && s[i] in s;
      }
    }
  }

  lemma NoMarkerWithoutP(s: string)
    requires 'P' !in ToUpper(s)
    ensures !Marked(s)
  {
    NotWithoutFirst(ToUpper(s), "PASSWORD");
    NotWithoutFirst(ToUpper(s), "PASS");
    NotWithoutFirst(ToUpper(s), "PWD");
  }

  lemma Examples()
    ensures !Marked("FOO=") && !Marked("s3cr3t") && Marked("pwd")
  {
    assert ToUpper("FOO=") == "FOO=" && ToUpper("s3cr3t") == "S3CR3T" && ToUpper("pwd") == "PWD";
    NoMarkerWithoutP("FOO=");
    NoMarkerWithoutP("s3cr3t");
    assert OccursAt("PWD", "PWD", 0);
  }

  /** For instance. */
  lemma RotationHidesALine()
    ensures Rotated("FOO" + "=" + "pwd" + "\n", "s3cr3t") == "FOO" + "=" + "s3cr3t" + "\n"
    ensures Rotated("FOO" + "=" + "s3cr3t" + "\n", "n3w") == "FOO" + "=" + "s3cr3t" + "\n"
  {
    Examples();
    assert "FOO" + "=" == "FOO=";
    RotationHidesLine("FOO", "pwd", "s3cr3t", "n3w");
  }

  // ----------------------------------------------------------- named variable

  function AssignedLine(line: string, name: string, value: string): string {
    if name + "=" <= line then name + "=" + value else line
  }

  function Assigned(content: string, name: string, value: string): string {
    Rewritten(content, l => AssignedLine(l, name, value))
  }

  /** `ReplaceEnvVarInContent`. */
  method ReplaceEnvVarInContent(content: string, envVarName: string, newValue: string) returns (sb: string)
    ensures sb == Assigned(content, envVarName, newValue)
  {
    var lines := ScanLines(content);
    ghost var f := l => AssignedLine(l, envVarName, newValue);
    sb := "";
    for i := 0 to |lines|
      invariant sb == Unlines(MapLines(lines[..i], f))
    {
      MapNext(lines, f, i);
      var line := lines[i];
      var prefix := envVarName + "=";
      if prefix <= line {
        line := prefix + newValue;
      }
      sb := sb + (line + "\n");
    }
    assert lines[..|lines|] == lines;
  }

  /** What setting a variable makes of a text: its lines get the new value, the others stay. */
  ghost predicate IsAssignment(content: string, after: string, name: string, value: string) {
    exists lines: seq<string> ::
      && |lines| == |Between(content)| && after == Unlines(lines)
      && forall i :: 0 <= i < |lines| ==> IsAssignedLine(DropCR(Between(content)[i]), lines[i], name, value)
  }

  ghost predicate IsAssignedLine(line: string, after: string, name: string, value: string) {
    if exists was :: line == name + "=" + was then after == name + "=" + value else after == line
  }

  lemma AssignedLineIs(line: string, name: string, value: string)
    ensures IsAssignedLine(line, AssignedLine(line, name, value), name, value)
  {
    var prefix := name + "=";
    if prefix <= line {
      assert line == name + "=" + line[|prefix|..];
    }
  }

  lemma AssignedIs(content: string, name: string, value: string)
    ensures IsAssignment(content, Assigned(content, name, value), name, value)
  {
    var lines := MapLines(ScanLines(content), l => AssignedLine(l, name, value));
    ScanIsBetween(content);
    forall i | 0 <= i < |lines| ensures IsAssignedLine(DropCR(Between(content)[i]), lines[i], name, value) {
      AssignedLineIs(ScanLines(content)[i], name, value);
    }
    assert Assigned(content, name, value) == Unlines(lines);
  }

  /** Line by line, what a scan of the new text gives. */
  lemma AssignedScans(content: string, name: string, value: string)
    requires Printable(value) && '\n' !in name
    ensures var ls, out, prefix := ScanLines(content), ScanLines(Assigned(content, name, value)), name + "=";
            |out| == |ls| && forall i :: 0 <= i < |ls| ==>
              (prefix <= out[i] <==> prefix <= ls[i]) && (prefix <= ls[i] ==> out[i] == prefix + value)
  {
    var f := l => AssignedLine(l, name, value);
    var ls := ScanLines(content);
    AssignedMakesLines(name, value);
    var set_ := MapLines(ls, f);
    forall l | l in set_ ensures '\n' !in l {
      var i :| 0 <= i < |ls| && set_[i] == l;
      assert ls[i] in ls;
    }
    ScanOfPrinted(set_);
    assert Assigned(content, name, value) == Unlines(set_);
    forall i | 0 <= i < |ls| {
      AssignedLineReads(ls[i], name, value);
    }
  }

  /** A variable reads back: the lines of the new text that set it all give the new value, and
      there is one exactly when there was one before. */
  lemma AssignedReadsBack(content: string, name: string, value: string)
    requires Printable(value) && '\n' !in name
    ensures var ls, out, prefix := ScanLines(content), ScanLines(Assigned(content, name, value)), name + "=";
            && (forall l :: l in out && prefix <= l ==> l == prefix + value)
            && (prefix + value in out <==> exists l :: l in ls && prefix <= l)
  {
    var ls, out, prefix := ScanLines(content), ScanLines(Assigned(content, name, value)), name + "=";
    AssignedScans(content, name, value);
    if prefix + value in out {
      var i :| 0 <= i < |out| && out[i] == prefix + value;
      assert (prefix + value)[..|prefix|] == prefix;
      assert prefix <= ls[i] && ls[i] in ls;
    }
    if l :| l in ls && prefix <= l {
      var i :| 0 <= i < |ls| && ls[i] == l;
      assert out[i] == prefix + value;
    }
  }

  lemma AssignedLineReads(l: string, name: string, value: string)
    requires Printable(value)
    ensures var out, prefix := DropCR(AssignedLine(l, name, value)), name + "=";
            (prefix <= out <==> prefix <= l) && (prefix <= l ==> out == prefix + value)
  {
    var prefix := name + "=";
    if prefix <= l {
      DropCROfRotated(prefix, value);
      assert (prefix + value)[..|prefix|] == prefix;
    } else {
      PrefixOfLonger(prefix, DropCR(l), l);
    }
  }

  lemma PrefixOfLonger(p: string, d: string, l: string)
    ensures p <= d && d <= l ==> p <= l
  {
  }

  lemma AssignLineTwice(l: string, name: string, a: string, b: string)
    ensures AssignedLine(DropCR(AssignedLine(l, name, a)), name, b) == AssignedLine(l, name, b)
            <==> name + "=" <= l || DropCR(l) == l
  {
    var prefix := name + "=";
    if prefix <= l {
      var r := prefix + a;
      assert r[..|prefix|] == prefix;
      assert prefix[|prefix| - 1] == '=';
      if DropCR(r) != r {
        assert |DropCR(r)| == |r| - 1 && a != "";
        assert DropCR(r)[..|prefix|] == prefix;
      }
    } else if DropCR(l) != l {
      var d := DropCR(l);
      PrefixOfLonger(prefix, d, l);
    }
  }

  lemma AssignedMakesLines(name: string, a: string)
    requires '\n' !in a
    ensures MakesLines(l => AssignedLine(l, name, a))
  {
    forall l: string | '\n' !in l ensures '\n' !in AssignedLine(l, name, a) {
      var prefix := name + "=";
      if prefix <= l {
        assert forall c :: c in prefix ==> c in l;
      }
    }
  }

  /** Setting a variable twice is setting it once, exactly when no other line ends in two
      carriage returns. */
  lemma AssignTwiceExactly(c: string, name: string, a: string, b: string)
    requires '\n' !in a && '\n' !in b
    ensures Assigned(Assigned(c, name, a), name, b) == Assigned(c, name, b)
            <==> forall l :: l in ScanLines(c) ==> name + "=" <= l || DropCR(l) == l
  {
    var f, g := l => AssignedLine(l, name, a), l => AssignedLine(l, name, b);
    AssignedMakesLines(name, a);
    AssignedMakesLines(name, b);
    RewriteTwice(c, f, g);
    forall l ensures g(DropCR(f(l))) == g(l) <==> name + "=" <= l || DropCR(l) == l {
      AssignLineTwice(l, name, a, b);
    }
  }
}
