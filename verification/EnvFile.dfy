/** The in-place rewrite of the IMAGE_TAG line of an env file. */
module EnvFile {
  import opened Text

  const PREFIX := "IMAGE_TAG="

  /** Where Python's `splitlines` breaks, carriage returns aside. */
  predicate IsBreak(c: char) {
    var n := c as int;
    10 <= n <= 12 || 0x1C <= n <= 0x1E || n == 0x85 || n == 0x2028 || n == 0x2029
  }

  /** Reading in text mode turns every `\r\n` and every other `\r` into a newline. */
  function ReadText(raw: string): (s: string)
    ensures '\r' !in s
    ensures '\r' !in raw ==> s == raw
    decreases |raw|
  {
    if raw == "" then ""
    else if raw[0] != '\r' then [raw[0]] + ReadText(raw[1..])
    else "\n" + ReadText(if |raw| > 1 && raw[1] == '\n' then raw[2..] else raw[1..])
  }

  function FirstBreak(s: string): (r: int)
    ensures -1 <= r < |s|
    ensures r >= 0 ==> IsBreak(s[r]) && forall k :: 0 <= k < r ==> !IsBreak(s[k])
    ensures r == -1 ==> forall k :: 0 <= k < |s| ==> !IsBreak(s[k])
  {
    if s == "" then -1
    else if IsBreak(s[0]) then 0
    else
      var r := FirstBreak(s[1..]);
      if r == -1 then -1 else r + 1
  }

  /** `splitlines(keepends=True)`. */
  function SplitLines(s: string): seq<string>
    decreases |s|
  {
    if s == "" then []
    else
      var i := FirstBreak(s);
      if i == -1 then [s] else [s[..i + 1]] + SplitLines(s[i + 1..])
  }

  function Concat(lines: seq<string>): string {
    if lines == [] then "" else lines[0] + Concat(lines[1..])
  }

  predicate IsTagLine(line: string) {
    PREFIX <= line
  }

  function TagLine(tag: string): string {
    PREFIX + tag + "\n"
  }

  function Rewritten(lines: seq<string>, tag: string): seq<string> {
    if lines == [] then []
    else [if IsTagLine(lines[0]) then TagLine(tag) else lines[0]] + Rewritten(lines[1..], tag)
  }

  predicate HasTag(lines: seq<string>) {
    exists l :: l in lines && IsTagLine(l)
  }

  /** Every IMAGE_TAG line replaced, or one appended when there is none. */
  function UpdatedList(lines: seq<string>, tag: string): seq<string> {
    if HasTag(lines) then Rewritten(lines, tag) else Rewritten(lines, tag) + [TagLine(tag)]
  }

  /** The new text of a file that read as `text`. */
  function Updated(text: string, tag: string): string {
    Concat(UpdatedList(SplitLines(text), tag))
  }

  /** Builds the new lines one by one, as `_update_env_image_tag` does. */
  method UpdateImageTag(raw: string, tag: string) returns (text: string)
    ensures text == Updated(ReadText(raw), tag)
  {
    var lines := SplitLines(ReadText(raw));
    var newLines: seq<string> := [];
    var updated := false;
    for i := 0 to |lines|
      invariant newLines == Rewritten(lines[..i], tag)
      invariant updated <==> HasTag(lines[..i])
    {
      assert lines[..i + 1] == lines[..i] + [lines[i]];
      RewrittenAppend(lines[..i], lines[i], tag);
      HasTagAppend(lines[..i], lines[i]);
      if IsTagLine(lines[i]) {
        newLines := newLines + [TagLine(tag)];
        updated := true;
      } else {
        newLines := newLines + [lines[i]];
      }
    }
    assert lines[..|lines|] == lines;
    if !updated {
      newLines := newLines + [TagLine(tag)];
    }
    text := Concat(newLines);
  }

  lemma {:induction false} RewrittenAppend(lines: seq<string>, l: string, b: string)
    ensures Rewritten(lines + [l], b) == Rewritten(lines, b) + [if IsTagLine(l) then TagLine(b) else l]
  {
    if lines == [] {
      assert lines + [l] == [l];
    } else {
      assert (lines + [l])[1..] == lines[1..] + [l];
      RewrittenAppend(lines[1..], l, b);
    }
  }

  lemma HasTagAppend(lines: seq<string>, l: string)
    ensures HasTag(lines + [l]) <==> HasTag(lines) || IsTagLine(l)
  {
    assert forall m :: m in lines + [l] <==> m in lines || m == l;
  }

  // ------------------------------------------------------------ reading it back

  predicate NoBreak(s: string) {
    forall c :: c in s ==> !IsBreak(c) && c != '\r'
  }

  /** A line with its terminator. */
  predicate Terminated(line: string) {
    line != "" && IsBreak(line[|line| - 1]) && forall k :: 0 <= k < |line| - 1 ==> !IsBreak(line[k])
  }

  predicate Open(line: string) {
    line != "" && forall k :: 0 <= k < |line| ==> !IsBreak(line[k])
  }

  /** Terminated lines, of which only the last may lack its terminator. */
  predicate IsLineList(lines: seq<string>) {
    lines == []
    || (lines[1..] == [] && Open(lines[0]))
    || (Terminated(lines[0]) && IsLineList(lines[1..]))
  }

  predicate EndsOpen(lines: seq<string>) {
    lines != [] && Open(lines[|lines| - 1])
  }

  /** One unfolding of `SplitLines` at the first break. */
  lemma LineSplitCases(s: string) returns (first: string, rest: string)
    requires s != ""
    ensures s == first + rest && SplitLines(s) == [first] + SplitLines(rest) && |rest| < |s|
    ensures (Terminated(first)) || (Open(first) && rest == "")
    ensures rest != "" ==> rest[|rest| - 1] == s[|s| - 1]
    ensures rest == "" ==> first == s
  {
    var i := FirstBreak(s);
    if i == -1 {
      first, rest := s, "";
      assert SplitLines(rest) == [];
      assert Open(first);
    } else {
      first, rest := s[..i + 1], s[i + 1..];
      assert Terminated(first);
    }
  }

  lemma {:induction false} SplitIsLineList(s: string)
    ensures IsLineList(SplitLines(s))
    decreases |s|
  {
    if s != "" {
      var first, rest := LineSplitCases(s);
      SplitIsLineList(rest);
      assert SplitLines(s)[1..] == SplitLines(rest);
    }
  }

  lemma {:induction false} ConcatOfSplit(s: string)
    ensures Concat(SplitLines(s)) == s
    decreases |s|
  {
    if s != "" {
      var first, rest := LineSplitCases(s);
      ConcatOfSplit(rest);
      assert SplitLines(s)[1..] == SplitLines(rest);
    }
  }

  lemma EndsOpenAfter(first: string, lines: seq<string>)
    requires Terminated(first) || (Open(first) && lines == [])
    ensures EndsOpen([first] + lines) <==> if lines == [] then Open(first) else EndsOpen(lines)
    ensures Terminated(first) ==> !Open(first)
  {
    assert lines != [] ==> ([first] + lines)[|lines|] == lines[|lines| - 1];
    assert Terminated(first) ==> IsBreak(first[|first| - 1]);
  }

  lemma {:induction false} SplitEnd(s: string)
    ensures EndsOpen(SplitLines(s)) <==> s != "" && !IsBreak(s[|s| - 1])
    decreases |s|
  {
    if s != "" {
      var first, rest := LineSplitCases(s);
      SplitEnd(rest);
      EndsOpenAfter(first, SplitLines(rest));
      assert SplitLines(rest) == [] <==> rest == "";
    }
  }

  lemma LineSplitFirst(l: string, rest: string)
    requires Terminated(l)
    ensures SplitLines(l + rest) == [l] + SplitLines(rest)
  {
    var s := l + rest;
    assert IsBreak(s[|l| - 1]);
    assert forall k :: 0 <= k < |l| - 1 ==> s[k] == l[k];
    assert FirstBreak(s) == |l| - 1;
    assert s[..|l|] == l && s[|l|..] == rest;
  }

  lemma {:induction false} SplitOfConcat(lines: seq<string>)
    requires IsLineList(lines)
    ensures SplitLines(Concat(lines)) == lines
  {
    if lines == [] {
    } else if Terminated(lines[0]) && IsLineList(lines[1..]) {
      SplitOfConcat(lines[1..]);
      LineSplitFirst(lines[0], Concat(lines[1..]));
    } else {
      assert lines == [lines[0]] && Concat(lines) == lines[0] + "" == lines[0];
    }
  }

  function WithoutTerminator(l: string): string {
    if l != "" && IsBreak(l[|l| - 1]) then l[..|l| - 1] else l
  }

  function TagValue(line: string): string
    requires IsTagLine(line)
  {
    WithoutTerminator(line[|PREFIX|..])
  }

  /** A reader of the lines finds this tag, whichever IMAGE_TAG line it takes. */
  predicate TagIs(lines: seq<string>, tag: string) {
    HasTag(lines) && forall l :: l in lines && IsTagLine(l) ==> TagValue(l) == tag
  }

  /** Where a line can be appended, or none need be. */
  predicate Appendable(text: string) {
    text == "" || IsBreak(text[|text| - 1]) || HasTag(SplitLines(text))
  }

  predicate IsOther(line: string) {
    !IsTagLine(line)
  }

  /** The lines that are not the image tag. */
  function Others(lines: seq<string>): seq<string> {
    Filter(lines, IsOther)
  }

  lemma TagLineFacts(tag: string)
    ensures IsTagLine(TagLine(tag)) && TagValue(TagLine(tag)) == tag
    ensures NoBreak(tag) ==> Terminated(TagLine(tag))
  {
    var l := TagLine(tag);
    assert l[|PREFIX|..] == tag + "\n";
    if NoBreak(tag) {
      forall k | 0 <= k < |l| - 1 ensures !IsBreak(l[k]) {
        assert l[k] == if k < |PREFIX| then PREFIX[k] else tag[k - |PREFIX|];
      }
    }
  }

  lemma {:induction false} RewrittenFacts(lines: seq<string>, tag: string)
    requires IsLineList(lines) && NoBreak(tag)
    ensures IsLineList(Rewritten(lines, tag))
    ensures EndsOpen(Rewritten(lines, tag)) ==> EndsOpen(lines)
    ensures forall l :: l in Rewritten(lines, tag) && IsTagLine(l) ==> l == TagLine(tag)
    ensures TagLine(tag) in Rewritten(lines, tag) <== HasTag(lines)
    ensures Others(Rewritten(lines, tag)) == Others(lines)
  {
    if lines != [] {
      TagLineFacts(tag);
      RewrittenFacts(lines[1..], tag);
      assert forall l :: l in lines ==> l == lines[0] || l in lines[1..];
    }
  }

  lemma {:induction false} NothingToRewrite(lines: seq<string>, tag: string)
    requires !HasTag(lines)
    ensures Rewritten(lines, tag) == lines
  {
    if lines != [] {
      assert lines[0] in lines;
      assert forall l :: l in lines[1..] ==> l in lines;
      NothingToRewrite(lines[1..], tag);
    }
  }

  lemma {:induction false} LineListAppend(lines: seq<string>, l: string)
    requires IsLineList(lines) && !EndsOpen(lines) && Terminated(l)
    ensures IsLineList(lines + [l])
  {
    if lines == [] {
      assert lines + [l] == [l] && [l][1..] == [];
    } else {
      assert lines[1..] == [] ==> lines[|lines| - 1] == lines[0];
      LineListAppend(lines[1..], l);
      assert (lines + [l])[1..] == lines[1..] + [l];
    }
  }

  /** What is written is read back line by line. */
  lemma UpdatedLines(text: string, tag: string)
    requires NoBreak(tag) && Appendable(text)
    ensures SplitLines(Updated(text, tag)) == UpdatedList(SplitLines(text), tag)
  {
    var lines := SplitLines(text);
    SplitIsLineList(text);
    SplitEnd(text);
    RewrittenFacts(lines, tag);
    TagLineFacts(tag);
    if !HasTag(lines) {
      LineListAppend(Rewritten(lines, tag), TagLine(tag));
    }
    SplitOfConcat(UpdatedList(lines, tag));
  }

  lemma UpdatedListTag(lines: seq<string>, tag: string)
    requires IsLineList(lines) && NoBreak(tag)
    ensures TagIs(UpdatedList(lines, tag), tag)
  {
    RewrittenFacts(lines, tag);
    TagLineFacts(tag);
    assert TagLine(tag) in UpdatedList(lines, tag);
  }

  lemma UpdatedListOthers(lines: seq<string>, tag: string)
    requires IsLineList(lines) && NoBreak(tag)
    ensures Others(UpdatedList(lines, tag)) == Others(lines)
  {
    RewrittenFacts(lines, tag);
    TagLineFacts(tag);
    FilterConcat(Rewritten(lines, tag), [TagLine(tag)], IsOther);
    assert Others([TagLine(tag)]) == [];
  }

  /** An unterminated last line swallows the appended one. */
  lemma AppendedToOpenLine(l: string, tag: string)
    requires l != "" && !IsTagLine(l)
    ensures !IsTagLine(l + TagLine(tag))
  {
    var s := l + TagLine(tag);
    if |l| >= |PREFIX| {
      assert l[..|PREFIX|] == s[..|PREFIX|];
    } else {
      var k := 9 - |l|;
      assert s[9] == TagLine(tag)[k] && TagLine(tag)[k] == PREFIX[k] && PREFIX[k] != '=';
    }
  }

  lemma JoinedLine(l: string, tag: string)
    requires Open(l) && NoBreak(tag)
    ensures Terminated(l + TagLine(tag))
  {
    TagLineFacts(tag);
    var s, t := l + TagLine(tag), TagLine(tag);
    assert s[|s| - 1] == t[|t| - 1];
    forall k | 0 <= k < |s| - 1 ensures !IsBreak(s[k]) {
      assert s[k] == if k < |l| then l[k] else t[k - |l|];
    }
  }

  lemma {:induction false} AppendedToOpenList(lines: seq<string>, tag: string)
    requires IsLineList(lines) && EndsOpen(lines) && !HasTag(lines) && NoBreak(tag)
    ensures !HasTag(SplitLines(Concat(lines + [TagLine(tag)])))
  {
    var l, t := lines[0], TagLine(tag);
    assert l in lines;
    assert (lines + [t])[1..] == lines[1..] + [t];
    if lines[1..] == [] {
      JoinedLine(l, tag);
      LineSplitFirst(l + t, "");
      AppendedToOpenLine(l, tag);
      assert lines + [t] == [l, t] && Concat([l, t]) == l + Concat([t]) && Concat([t]) == t + "";
      assert (l + t) + "" == l + (t + "");
      assert SplitLines("") == [] && SplitLines(l + t + "") == [l + t];
    } else {
      assert forall m :: m in lines[1..] ==> m in lines;
      AppendedToOpenList(lines[1..], tag);
      LineSplitFirst(l, Concat(lines[1..] + [t]));
    }
  }

  /** After the update a reader finds the new tag exactly when the old text was empty,
      ended a line, or had an IMAGE_TAG line already. */
  lemma UpdateTakesEffectExactly(text: string, tag: string)
    requires NoBreak(tag)
    ensures TagIs(SplitLines(Updated(text, tag)), tag) <==> Appendable(text)
  {
    var lines := SplitLines(text);
    SplitIsLineList(text);
    SplitEnd(text);
    if Appendable(text) {
      UpdatedLines(text, tag);
      UpdatedListTag(lines, tag);
    } else {
      NothingToRewrite(lines, tag);
      AppendedToOpenList(lines, tag);
    }
  }

  /** Nothing but the image tag changes, and the file stays fit for the next update. */
  lemma UpdateKeepsOtherLines(text: string, tag: string)
    requires NoBreak(tag) && Appendable(text)
    ensures Others(SplitLines(Updated(text, tag))) == Others(SplitLines(text))
    ensures Appendable(Updated(text, tag))
  {
    SplitIsLineList(text);
    UpdatedLines(text, tag);
    UpdatedListTag(SplitLines(text), tag);
    UpdatedListOthers(SplitLines(text), tag);
  }

  /** The last of two updates wins. */
  lemma UpdateTwice(text: string, a: string, b: string)
    requires NoBreak(a) && Appendable(text)
    ensures Updated(Updated(text, a), b) == Updated(text, b)
  {
    SplitIsLineList(text);
    UpdatedLines(text, a);
    UpdatedListTwice(SplitLines(text), a, b);
  }

  lemma UpdatedListTwice(lines: seq<string>, a: string, b: string)
    requires IsLineList(lines) && NoBreak(a)
    ensures UpdatedList(UpdatedList(lines, a), b) == UpdatedList(lines, b)
  {
    UpdatedListTag(lines, a);
    if HasTag(lines) {
      RewrittenTwice(lines, a, b);
    } else {
      NothingToRewrite(lines, a);
      RewrittenAppend(lines, TagLine(a), b);
      TagLineFacts(a);
    }
  }

  lemma {:induction false} RewrittenTwice(lines: seq<string>, a: string, b: string)
    ensures Rewritten(Rewritten(lines, a), b) == Rewritten(lines, b)
  {
    if lines != [] {
      TagLineFacts(a);
      RewrittenTwice(lines[1..], a, b);
    }
  }

  lemma {:induction false} NoReturnInConcat(lines: seq<string>)
    ensures '\r' !in Concat(lines) <==> forall l :: l in lines ==> '\r' !in l
  {
    if lines != [] {
      NoReturnInConcat(lines[1..]);
      assert forall l :: l in lines ==> l == lines[0] || l in lines[1..];
      assert lines[0] in lines;
    }
  }

  lemma {:induction false} RewrittenNoReturn(lines: seq<string>, tag: string)
    requires NoBreak(tag) && forall l :: l in lines ==> '\r' !in l
    ensures forall l :: l in Rewritten(lines, tag) ==> '\r' !in l
    ensures '\r' !in TagLine(tag)
  {
    if lines != [] {
      RewrittenNoReturn(lines[1..], tag);
    }
  }

  /** Reading the updated file back translates nothing. */
  lemma UpdatedReadsBack(text: string, tag: string)
    requires '\r' !in text && NoBreak(tag)
    ensures ReadText(Updated(text, tag)) == Updated(text, tag)
  {
    var lines := SplitLines(text);
    ConcatOfSplit(text);
    NoReturnInConcat(lines);
    RewrittenNoReturn(lines, tag);
    NoReturnInConcat(UpdatedList(lines, tag));
  }
}
