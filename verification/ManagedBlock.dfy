/**
 The marker-delimited block the agent keeps in PAM files.  Insertion is meant to be a
 lens: writing twice is writing once, and text outside the block is left alone.
 */
module ManagedBlock {
  import opened Text

  const BEGIN := "# nexplane-managed-begin\n"
  const END := "# nexplane-managed-end"

  function Terminated(content: string): string {
    if content != "" && content[|content| - 1] == '\n' then content else content + "\n"
  }

  function Insert(beg: string, end: string, content: string, block: string): string {
    var si, ei := Index(content, beg), Index(content, end);
    if si != -1 && ei != -1 then
      content[..si] + beg + block + end + content[ei + |end|..]
    else
      Terminated(content) + beg + block + end + "\n"
  }

  function InsertManagedBlock(content: string, block: string): string {
    Insert(BEGIN, END, content, block)
  }

  /** The block a file holds, when it holds one in the right order. */
  function BlockOf(beg: string, end: string, content: string): Option<string> {
    var si, ei := Index(content, beg), Index(content, end);
    if 0 <= si && si + |beg| <= ei then Some(content[si + |beg|..ei]) else None
  }

  /** The text before and after the block; a file without a block is about to get one
      at its end. */
  function Outside(beg: string, end: string, content: string): (string, string) {
    var si, ei := Index(content, beg), Index(content, end);
    if 0 <= si < ei then (content[..si], content[ei + |end|..]) else (Terminated(content), "\n")
  }

  /** No marker at all once the last line is terminated, or a first begin marker before
      the first end marker. */
  predicate Clean(beg: string, end: string, content: string) {
    (!Contains(Terminated(content), beg) && !Contains(content, end))
    || 0 <= Index(content, beg) < Index(content, end)
  }

  // ------------------------------------------------- markers never overlap

  /** The hash sign starts the marker and occurs nowhere else in it. */
  ghost predicate Marker(p: string) {
    |p| > 0 && p[0] == '#' && forall i :: 0 < i < |p| ==> p[i] != '#'
  }

  ghost predicate Markers(beg: string, end: string) {
    Marker(beg) && Marker(end) && '\n' !in end
    && exists k :: 0 <= k < |beg| && k < |end| && beg[k] != end[k]
  }

  lemma TheMarkers()
    ensures Markers(BEGIN, END)
  {
    assert BEGIN[19] != END[19];
    assert forall i :: 0 < i < |BEGIN| ==> BEGIN[i] != '#';
    assert forall i :: 0 < i < |END| ==> END[i] != '#';
  }

  lemma NoHashInside(s: string, p: string, i: int, k: int)
    requires Marker(p) && OccursAt(s, p, i) && 0 < k < |p|
    ensures s[i + k] != '#'
  {
    assert s[i + k] == s[i..i + |p|][k];
  }

  lemma NoHashInMarker(x: string, q: string, y: string, k: int)
    requires Marker(q) && 0 < k < |q|
    ensures (x + q + y)[|x| + k] != '#'
  {
    assert (x + q + y)[|x| + k] == q[k];
  }

  /** An occurrence of a marker in `x + q + y` lies in `x`, is where `q` is, or lies in `y`. */
  lemma OccurrenceSplits(x: string, q: string, y: string, p: string, i: int)
    requires Marker(p) && Marker(q) && OccursAt(x + q + y, p, i)
    ensures OccursAt(x, p, i) || i == |x| || OccursAt(y, p, i - |x| - |q|)
    ensures i == |x| ==> forall k :: 0 <= k < |p| && k < |q| ==> p[k] == q[k]
  {
    var s := x + q + y;
    assert s[|x|] == q[0];
    assert s[i] == s[i..i + |p|][0];
    if i < |x| && i + |p| <= |x| {
      assert x[i..i + |p|] == s[i..i + |p|];
    } else if i < |x| {
      NoHashInside(s, p, i, |x| - i);
    } else if i == |x| {
      assert forall k :: 0 <= k < |q| ==> s[|x| + k] == q[k];
      assert forall k :: 0 <= k < |p| ==> s[|x| + k] == s[i..i + |p|][k] == p[k];
    } else if i < |x| + |q| {
      NoHashInMarker(x, q, y, i - |x|);
    } else {
      assert y[i - |x| - |q|..i - |x| - |q| + |p|] == s[i..i + |p|];
    }
  }

  lemma OccurrenceLifts(x: string, q: string, y: string, p: string, i: int)
    ensures OccursAt(x, p, i) ==> OccursAt(x + q + y, p, i)
    ensures OccursAt(y, p, i) ==> OccursAt(x + q + y, p, |x| + |q| + i)
    ensures OccursAt(x + q + y, q, |x|)
  {
    var s := x + q + y;
    if OccursAt(x, p, i) {
      assert s[i..i + |p|] == x[i..i + |p|];
    }
    if OccursAt(y, p, i) {
      assert s[|x| + |q| + i..|x| + |q| + i + |p|] == y[i..i + |p|];
    }
    assert s[|x|..|x| + |q|] == q;
  }

  /** The first occurrence of a marker around another one. */
  lemma IndexAround(x: string, q: string, y: string, p: string)
    requires Marker(p) && Marker(q)
    ensures Contains(x, p) ==> Index(x + q + y, p) == Index(x, p)
    ensures !Contains(x, p) && p == q ==> Index(x + q + y, p) == |x|
    ensures !Contains(x, p) && (exists k :: 0 <= k < |p| && k < |q| && p[k] != q[k]) ==>
              Index(x + q + y, p) == if Contains(y, p) then |x| + |q| + Index(y, p) else -1
  {
    var s := x + q + y;
    forall i | OccursAt(s, p, i)
      ensures OccursAt(x, p, i) || i == |x| || OccursAt(y, p, i - |x| - |q|)
      ensures i == |x| ==> forall k :: 0 <= k < |p| && k < |q| ==> p[k] == q[k]
    {
      OccurrenceSplits(x, q, y, p, i);
    }
    OccurrenceLifts(x, q, y, p, 0);
    if Contains(x, p) {
      OccurrenceLifts(x, q, y, p, Index(x, p));
      IndexIs(s, p, Index(x, p));
    } else if p == q {
      IndexIs(s, p, |x|);
    } else if Contains(y, p) && exists k :: 0 <= k < |p| && k < |q| && p[k] != q[k] {
      OccurrenceLifts(x, q, y, p, Index(y, p));
      IndexIs(s, p, |x| + |q| + Index(y, p));
    }
  }

  lemma TerminatedKeepsEnd(end: string, content: string)
    requires Marker(end) && '\n' !in end
    ensures Index(Terminated(content), end) == Index(content, end)
  {
    var t := Terminated(content);
    if t != content {
      forall i | OccursAt(t, end, i) ensures OccursAt(content, end, i) {
        var last := t[i..i + |end|][|end| - 1];
        assert last == end[|end| - 1] && last == t[i + |end| - 1];
        assert t[i..i + |end|] == content[i..i + |end|];
      }
      if Contains(content, end) {
        var e := Index(content, end);
        assert t[e..e + |end|] == content[e..e + |end|];
        IndexIs(t, end, e);
      }
    }
  }

  /** Where a begin marker that termination creates must stand. */
  lemma TerminatedBegin(beg: string, content: string)
    requires Marker(beg)
    ensures Contains(content, beg) ==> Index(Terminated(content), beg) == Index(content, beg)
    ensures !Contains(content, beg) && Contains(Terminated(content), beg) ==>
              Index(Terminated(content), beg) + |beg| == |Terminated(content)|
  {
    var t := Terminated(content);
    if t != content {
      forall i | OccursAt(t, beg, i) && i + |beg| <= |content| ensures OccursAt(content, beg, i) {
        assert t[i..i + |beg|] == content[i..i + |beg|];
      }
      if Contains(content, beg) {
        var s := Index(content, beg);
        assert t[s..s + |beg|] == content[s..s + |beg|];
        IndexIs(t, beg, s);
      }
    }
  }

  /** The first end marker after a block: the block's own, if it has one. */
  function EndIn(end: string, block: string): int {
    if Contains(block, end) then Index(block, end) else |block|
  }

  /** Both searches on a text of the shape every insertion produces. */
  lemma FirstMarkers(beg: string, end: string, pre: string, block: string, post: string)
    requires Markers(beg, end)
    ensures var r := pre + beg + block + end + post;
            && Index(r, beg) == (if Contains(pre, beg) then Index(pre, beg) else |pre|)
            && Index(r, end) == (if Contains(pre, end) then Index(pre, end) else |pre| + |beg| + EndIn(end, block))
            && Index(r, end) + |end| <= |r|
  {
    var tail := block + end + post;
    var r := pre + beg + block + end + post;
    assert r == pre + beg + tail;
    IndexAround(pre, beg, tail, beg);
    IndexAround(pre, beg, tail, end);
    IndexAround(block, end, post, end);
  }

  // --------------------------------------------------------------- the lens

  lemma CutAround(pre: string, beg: string, b1: string, end: string, post: string, e: int)
    requires 0 <= e && e + |end| <= |b1 + end + post|
    ensures var r := pre + beg + b1 + end + post;
            r[..|pre|] == pre && r[|pre| + |beg| + e + |end|..] == (b1 + end + post)[e + |end|..]
  {
    var r := pre + beg + b1 + end + post;
    assert r == (pre + beg) + (b1 + end + post);
  }

  lemma InsertBetween(beg: string, end: string, r: string, b: string, si: nat, ei: nat)
    requires Index(r, beg) == si && Index(r, end) == ei
    ensures si <= |r| && ei + |end| <= |r|
    ensures Insert(beg, end, r, b) == r[..si] + beg + b + end + r[ei + |end|..]
  {
  }

  lemma InsertOver(beg: string, end: string, r: string, b: string, before: string, ei: nat, after: string)
    requires Index(r, beg) == |before| && Index(r, end) == ei
    requires |before| <= |r| && ei + |end| <= |r| && r[..|before|] == before && r[ei + |end|..] == after
    ensures Insert(beg, end, r, b) == before + beg + b + end + after
  {
    InsertBetween(beg, end, r, b, |before|, ei);
  }

  lemma EndFits(end: string, b1: string, post: string)
    ensures 0 <= EndIn(end, b1) && EndIn(end, b1) + |end| <= |b1 + end + post|
  {
  }

  lemma Spliced(beg: string, end: string, pre: string, b1: string, post: string, b2: string)
    requires Markers(beg, end) && !Contains(pre, beg) && !Contains(pre, end)
    ensures var e := EndIn(end, b1);
            0 <= e && e + |end| <= |b1 + end + post|
            && Insert(beg, end, pre + beg + b1 + end + post, b2)
               == pre + beg + b2 + end + (b1 + end + post)[e + |end|..]
  {
    FirstMarkers(beg, end, pre, b1, post);
    EndFits(end, b1, post);
    var e := EndIn(end, b1);
    CutAround(pre, beg, b1, end, post, e);
    InsertOver(beg, end, pre + beg + b1 + end + post, b2, pre, |pre| + |beg| + e, (b1 + end + post)[e + |end|..]);
  }

  /** Writing over a block just written keeps only the second, exactly when the first
      block holds no end marker. */
  lemma OverwriteExactly(beg: string, end: string, pre: string, b1: string, post: string, b2: string)
    requires Markers(beg, end) && !Contains(pre, beg) && !Contains(pre, end)
    ensures Insert(beg, end, pre + beg + b1 + end + post, b2) == pre + beg + b2 + end + post
            <==> !Contains(b1, end)
  {
    Spliced(beg, end, pre, b1, post, b2);
    if Contains(b1, end) {
      var e := EndIn(end, b1);
      assert |(b1 + end + post)[e + |end|..]| > |post|;
    } else {
      assert (b1 + end + post)[|b1| + |end|..] == post;
    }
  }

  lemma ContentSplits(beg: string, end: string, c: string)
    requires Markers(beg, end) && Contains(c, beg)
    ensures var si := Index(c, beg);
            c == c[..si] + beg + c[si + |beg|..] && !Contains(c[..si], beg)
            && (Contains(c[..si], end) <==> 0 <= Index(c, end) < si)
            && (Contains(c[..si], end) ==> Index(c, end) + |end| <= si)
            && (si < Index(c, end) ==> si + |beg| <= Index(c, end) && Index(c, end) + |end| <= |c|)
            && Index(c, end) != si
  {
    var si := Index(c, beg);
    assert c == c[..si] + beg + c[si + |beg|..];
    forall i | OccursAt(c[..si], beg, i) ensures OccursAt(c, beg, i) {
      assert c[i..i + |beg|] == c[..si][i..i + |beg|];
    }
    IndexAround(c[..si], beg, c[si + |beg|..], end);
  }

  lemma PrefixKeepsMisorder(beg: string, end: string, c: string, b1: string, b2: string)
    requires Markers(beg, end)
    requires 0 <= Index(c, end) < Index(c, beg)
    ensures Insert(beg, end, Insert(beg, end, c, b1), b2) != Insert(beg, end, c, b2)
  {
    ContentSplits(beg, end, c);
    var si, ei := Index(c, beg), Index(c, end);
    var r := Insert(beg, end, c, b1);
    assert r == c[..si] + beg + b1 + end + c[ei + |end|..];
    FirstMarkers(beg, end, c[..si], b1, c[ei + |end|..]);
    IndexAround(c[..si], beg, c[si + |beg|..], end);
    assert Index(r, beg) == si && Index(r, end) == ei;
    assert |Insert(beg, end, r, b2)| > |Insert(beg, end, c, b2)|;
  }

  /** A begin marker without an end marker stays in front of the appended block, and the
      second write swallows everything between. */
  lemma DanglingBegin(beg: string, end: string, c: string, b1: string, b2: string)
    requires Markers(beg, end)
    requires Contains(Terminated(c), beg) && !Contains(c, end)
    ensures Insert(beg, end, Insert(beg, end, c, b1), b2) != Insert(beg, end, c, b2)
  {
    var t := Terminated(c);
    TerminatedKeepsEnd(end, c);
    var s1 := Index(t, beg);
    assert !Contains(t[..s1], beg) && !Contains(t[..s1], end) by {
      ContentSplits(beg, end, t);
    }
    FirstMarkers(beg, end, t, b2, "\n");
    Swallowed(beg, end, t, s1, b1, b2);
  }

  lemma Swallowed(beg: string, end: string, t: string, s1: nat, b1: string, b2: string)
    requires Markers(beg, end)
    requires Index(t, beg) == s1 && !Contains(t, end)
    requires s1 <= |t| && !Contains(t[..s1], beg) && !Contains(t[..s1], end)
    ensures Index(Insert(beg, end, t + beg + b1 + end + "\n", b2), end) == s1 + |beg| + EndIn(end, b2)
  {
    FirstMarkers(beg, end, t, b1, "\n");
    var post := InsertBeforeCut(beg, end, t, t + beg + b1 + end + "\n", s1, b2);
    FirstMarkers(beg, end, t[..s1], b2, post);
  }

  lemma InsertBeforeCut(beg: string, end: string, t: string, r: string, s1: nat, b: string) returns (post: string)
    requires s1 <= |t| <= |r| && r[..|t|] == t
    requires Index(r, beg) == s1 && Contains(r, end)
    ensures Insert(beg, end, r, b) == t[..s1] + beg + b + end + post
  {
    var fe := Index(r, end);
    post := r[fe + |end|..];
    assert r[..s1] == r[..|t|][..s1];
  }

  lemma DanglingEnd(beg: string, end: string, c: string, b1: string, b2: string)
    requires Markers(beg, end)
    requires !Contains(c, beg) && Contains(c, end)
    ensures Insert(beg, end, Insert(beg, end, c, b1), b2) != Insert(beg, end, c, b2)
  {
    var t := Terminated(c);
    TerminatedKeepsEnd(end, c);
    TerminatedBegin(beg, c);
    var r := t + beg + b1 + end + "\n";
    FirstMarkers(beg, end, t, b1, "\n");
    assert |Insert(beg, end, r, b2)| > |Insert(beg, end, c, b2)|;
  }

  /** Inserting into a clean file puts the block between its outside texts. */
  lemma InsertShape(beg: string, end: string, c: string, b: string)
    requires Markers(beg, end) && Clean(beg, end, c)
    ensures var (pre, post) := Outside(beg, end, c);
            Insert(beg, end, c, b) == pre + beg + b + end + post
            && !Contains(pre, beg) && !Contains(pre, end)
  {
    var si := Index(c, beg);
    if 0 <= si < Index(c, end) {
      assert !Contains(c[..si], beg) && !Contains(c[..si], end) by {
        ContentSplits(beg, end, c);
      }
    } else {
      TerminatedKeepsEnd(end, c);
      assert !Contains(c, beg) by {
        TerminatedBegin(beg, c);
      }
    }
  }

  lemma PutPut(beg: string, end: string, c: string, b1: string, b2: string)
    requires Markers(beg, end)
    ensures Insert(beg, end, Insert(beg, end, c, b1), b2) == Insert(beg, end, c, b2)
            <==> Clean(beg, end, c) && !Contains(b1, end)
  {
    if Clean(beg, end, c) {
      InsertShape(beg, end, c, b1);
      InsertShape(beg, end, c, b2);
      var (pre, post) := Outside(beg, end, c);
      OverwriteExactly(beg, end, pre, b1, post, b2);
    } else if Contains(c, beg) && Contains(c, end) {
      assert Index(c, end) != Index(c, beg) by {
        ContentSplits(beg, end, c);
      }
      PrefixKeepsMisorder(beg, end, c, b1, b2);
    } else if Contains(c, end) {
      DanglingEnd(beg, end, c, b1, b2);
    } else {
      DanglingBegin(beg, end, c, b1, b2);
    }
  }

  /** Inserting twice is inserting the second block alone, for exactly these contents
      and first blocks and for every second block. */
  lemma InsertTwiceExactly(c: string, b1: string, b2: string)
    ensures InsertManagedBlock(InsertManagedBlock(c, b1), b2) == InsertManagedBlock(c, b2)
            <==> Clean(BEGIN, END, c) && !Contains(b1, END)
  {
    TheMarkers();
    PutPut(BEGIN, END, c, b1, b2);
  }

  lemma ShapeReadsBack(beg: string, end: string, pre: string, b: string, post: string)
    requires Markers(beg, end) && !Contains(pre, beg) && !Contains(pre, end) && !Contains(b, end)
    ensures var r := pre + beg + b + end + post;
            BlockOf(beg, end, r) == Some(b) && Outside(beg, end, r) == (pre, post)
  {
    var r := pre + beg + b + end + post;
    FirstMarkers(beg, end, pre, b, post);
    CutAround(pre, beg, b, end, post, |b|);
    assert r[|pre| + |beg|..|pre| + |beg| + |b|] == b;
    assert (b + end + post)[|b| + |end|..] == post;
  }

  /** What is inserted can be read back, and everything around it is where it was. */
  lemma InsertKeepsOutside(c: string, b: string)
    requires Clean(BEGIN, END, c) && !Contains(b, END)
    ensures BlockOf(BEGIN, END, InsertManagedBlock(c, b)) == Some(b)
    ensures Outside(BEGIN, END, InsertManagedBlock(c, b)) == Outside(BEGIN, END, c)
  {
    TheMarkers();
    KeepsOutside(BEGIN, END, c, b);
  }

  lemma KeepsOutside(beg: string, end: string, c: string, b: string)
    requires Markers(beg, end) && Clean(beg, end, c) && !Contains(b, end)
    ensures BlockOf(beg, end, Insert(beg, end, c, b)) == Some(b)
    ensures Outside(beg, end, Insert(beg, end, c, b)) == Outside(beg, end, c)
  {
    InsertShape(beg, end, c, b);
    var (pre, post) := Outside(beg, end, c);
    ShapeReadsBack(beg, end, pre, b, post);
  }

  lemma FiveParts(c: string, i: nat, j: nat, k: nat, l: nat)
    requires i <= j <= k <= l <= |c|
    ensures c == c[..i] + c[i..j] + c[j..k] + c[k..l] + c[l..]
  {
  }

  lemma OwnBlockStays(beg: string, end: string, c: string)
    requires BlockOf(beg, end, c).Some?
    ensures Insert(beg, end, c, BlockOf(beg, end, c).value) == c
  {
    var si, ei := Index(c, beg), Index(c, end);
    assert c[si..si + |beg|] == beg && c[ei..ei + |end|] == end;
    InsertBetween(beg, end, c, c[si + |beg|..ei], si, ei);
    FiveParts(c, si, si + |beg|, ei, ei + |end|);
  }

  /** Writing back the block a file already holds changes nothing. */
  lemma InsertOfOwnBlock(c: string)
    requires BlockOf(BEGIN, END, c).Some?
    ensures InsertManagedBlock(c, BlockOf(BEGIN, END, c).value) == c
  {
    OwnBlockStays(BEGIN, END, c);
  }

  /** The order matters: a stray end marker makes the file grow at every write. */
  lemma MisorderedFileGrows()
    ensures exists c, b :: |InsertManagedBlock(InsertManagedBlock(c, b), b)| > |InsertManagedBlock(c, b)|
  {
    TheMarkers();
    var c := END + "\n";
    var t := c;
    assert OccursAt(c, END, 0) by { assert c[0..|END|] == END; }
    assert |BEGIN| == 25 && |c| == 23;
    var r := t + BEGIN + "" + END + "\n";
    FirstMarkers(BEGIN, END, t, "", "\n");
    assert InsertManagedBlock(c, "") == r;
    assert |InsertManagedBlock(r, "")| > |r|;
  }
}
