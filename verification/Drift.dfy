/**
 Drift remediation: what is captured from sshd_config and sudoers, and the files that are
 written back from it.
 */
module Drift {
  import opened Text
  import opened Sorting

  // ------------------------------------------------------------- sshd_config

  datatype Setting = Setting(key: string, value: string)

  /** What the capture reads in a trimmed line: up to the first blank, and the rest. */
  function SettingIn(t: string): Option<Setting> {
    if t == "" || t[0] == '#' then None
    else
      var i := IndexChar(t, ' ');
      if i == -1 then None else Some(Setting(t[..i], TrimSpace(t[i + 1..])))
  }

  function SettingOf(line: string): Option<Setting> {
    SettingIn(TrimSpace(line))
  }

  function Settings(ls: seq<string>): map<string, string> {
    if ls == [] then map[]
    else
      var before := Settings(ls[..|ls| - 1]);
      match SettingOf(ls[|ls| - 1])
      case None => before
      case Some(s) => before[s.key := s.value]
  }

  function CapturedSSH(text: string): map<string, string> {
    Settings(ScanLines(text))
  }

  function SSHLines(keys: seq<string>, state: map<string, string>): (r: seq<string>)
    requires forall k :: k in keys ==> k in state
    ensures |r| == |keys| && forall i :: 0 <= i < |keys| ==> r[i] == keys[i] + " " + state[keys[i]]
  {
    if keys == [] then [] else SSHLines(keys[..|keys| - 1], state) + [keys[|keys| - 1] + " " + state[keys[|keys| - 1]]]
  }

  /** The keys of a state in order. */
  predicate Lists(keys: seq<string>, state: map<string, string>) {
    Ordered(keys) && multiset(keys) == multiset(state.Keys)
  }

  lemma ListsAll(keys: seq<string>, state: map<string, string>)
    requires multiset(keys) == multiset(state.Keys)
    ensures forall k :: k in keys <==> k in state
  {
    forall k ensures k in keys <==> k in state {
      assert k in multiset(keys) <==> k in multiset(state.Keys);
    }
  }

  ghost predicate PrintsSSH(text: string, state: map<string, string>) {
    exists keys :: Lists(keys, state) && (forall k :: k in keys ==> k in state) && text == Unlines(SSHLines(keys, state))
  }

  // ----------------------------------------------------------------- sudoers

  function Entry(line: string): Option<string> {
    var t := TrimSpace(line);
    if t == "" || t[0] == '#' || "Defaults" <= t then None else Some(t)
  }

  function Entries(ls: seq<string>): seq<string> {
    if ls == [] then []
    else
      match Entry(ls[|ls| - 1])
      case None => Entries(ls[..|ls| - 1])
      case Some(t) => Entries(ls[..|ls| - 1]) + [t]
  }

  function FileEntries(text: string): seq<string> {
    Entries(ScanLines(text))
  }

  function AllEntries(files: seq<string>): seq<string> {
    if files == [] then [] else AllEntries(files[..|files| - 1]) + FileEntries(files[|files| - 1])
  }

  /** The entries of sudoers and of the drop-ins. */
  function CapturedSudoers(sudoers: string, dropIns: seq<string>): seq<string> {
    Sort(FileEntries(sudoers) + AllEntries(dropIns))
  }

  const REMARK := "# Restored by Nexplane drift remediation"
  const ENV_RESET := "env_reset"
  const BADPASS := "mail_badpass"
  const PATHS := "secure_path=\"/usr/local/sbin:" + "/usr/local/bin:/usr/sbin:" + "/usr/bin:/sbin:/bin\""

  /** The last of the Defaults lines holds a backslash and a t, not a tab. */
  const HEADER: seq<string> := [
    REMARK, "Defaults" + "\t" + ENV_RESET, "Defaults" + "\t" + BADPASS, "Defaults" + "\\t" + PATHS, ""]

  function PrintedSudoers(entries: seq<string>): string {
    Join(HEADER + entries, '\n') + "\n"
  }

  // ---------------------------------------------------------------- the loops

  method ParseSSH(text: string) returns (m: map<string, string>)
    ensures m == CapturedSSH(text)
  {
    var lines := ScanLines(text);
    m := map[];
    for i := 0 to |lines|
      invariant m == Settings(lines[..i])
    {
      SettingsNext(lines, i);
      var line := TrimSpace(lines[i]);
      if line == "" || line[0] == '#' {
        continue;
      }
      var blank := IndexChar(line, ' ');
      if blank != -1 {
        m := m[line[..blank] := TrimSpace(line[blank + 1..])];
      }
    }
    assert lines[..|lines|] == lines;
  }

  /** The keys of a Go map come in no particular order. */
  method SortedKeys(state: map<string, string>) returns (keys: seq<string>)
    ensures Lists(keys, state)
  {
    var rest := state.Keys;
    keys := [];
    while rest != {}
      invariant multiset(keys) + multiset(rest) == multiset(state.Keys)
      decreases |rest|
    {
      var k :| k in rest;
      assert multiset(rest) == multiset(rest - {k}) + multiset{k};
      rest, keys := rest - {k}, keys + [k];
    }
    SortSorts(keys);
    keys := Sort(keys);
  }

  method PrintSSH(state: map<string, string>) returns (sb: string)
    ensures PrintsSSH(sb, state)
  {
    var keys := SortedKeys(state);
    ListsAll(keys, state);
    sb := "";
    for i := 0 to |keys|
      invariant forall k :: k in keys[..i] ==> k in state
      invariant sb == Unlines(SSHLines(keys[..i], state))
    {
      SSHLinesNext(keys, state, i);
      sb := sb + (keys[i] + " " + state[keys[i]] + "\n");
    }
    assert keys[..|keys|] == keys;
  }

  method ReadEntries(before: seq<string>, text: string) returns (entries: seq<string>)
    ensures entries == before + FileEntries(text)
  {
    var lines := ScanLines(text);
    entries := before;
    for i := 0 to |lines|
      invariant entries == before + Entries(lines[..i])
    {
      EntriesNext(before, lines, i);
      var line := TrimSpace(lines[i]);
      if line == "" || line[0] == '#' || "Defaults" <= line {
        continue;
      }
      entries := entries + [line];
    }
    assert lines[..|lines|] == lines;
  }

  method CollectEntries(sudoers: string, dropIns: seq<string>) returns (entries: seq<string>)
    ensures entries == CapturedSudoers(sudoers, dropIns)
  {
    entries := ReadEntries([], sudoers);
    assert entries == FileEntries(sudoers);
    ghost var own := entries;
    for i := 0 to |dropIns|
      invariant entries == own + AllEntries(dropIns[..i])
    {
      AllEntriesNext(own, dropIns, i);
      entries := ReadEntries(entries, dropIns[i]);
    }
    assert dropIns[..|dropIns|] == dropIns;
    entries := Sort(entries);
  }

  method PrintSudoers(entries: seq<string>) returns (content: string)
    ensures content == PrintedSudoers(entries)
  {
    var lines := HEADER;
    for i := 0 to |entries|
      invariant lines == HEADER + entries[..i]
    {
      lines := lines + [entries[i]];
    }
    assert entries[..|entries|] == entries;
    content := Join(lines, '\n') + "\n";
  }

  /** The files behind the two surfaces; a file that cannot be read has no lines. */
  class Host {
    var sshd: Option<string>
    var sudoers: string
    var dropIns: seq<string>

    constructor (sshdConfig: Option<string>, sudoersFile: string, dropInFiles: seq<string>)
      ensures sshd == sshdConfig && sudoers == sudoersFile && dropIns == dropInFiles
    {
      sshd, sudoers, dropIns := sshdConfig, sudoersFile, dropInFiles;
    }

    /** `captureSSHConfig`. */
    method CaptureSSHConfig() returns (result: Option<map<string, string>>)
      ensures result == if sshd == None then None else Some(CapturedSSH(sshd.value))
    {
      if sshd == None {
        return None;
      }
      var m := ParseSSH(sshd.value);
      result := Some(m);
    }

    /** `restoreSSHConfig`. */
    method RestoreSSHConfig(state: map<string, string>)
      modifies this
      ensures sshd.Some? && PrintsSSH(sshd.value, state)
      ensures sudoers == old(sudoers) && dropIns == old(dropIns)
    {
      var text := PrintSSH(state);
      sshd := Some(text);
    }

    /** `captureSudoers`. */
    method CaptureSudoers() returns (entries: seq<string>)
      ensures entries == CapturedSudoers(sudoers, dropIns)
    {
      entries := CollectEntries(sudoers, dropIns);
    }

    /** `restoreSudoers`; `valid` is visudo's answer about the new text. */
    method RestoreSudoers(entries: seq<string>, valid: string -> bool) returns (ok: bool)
      modifies this
      ensures ok == valid(PrintedSudoers(entries))
      ensures sudoers == if ok then PrintedSudoers(entries) else old(sudoers)
      ensures sshd == old(sshd) && dropIns == old(dropIns)
    {
      var content := PrintSudoers(entries);
      if !valid(content) {
        return false;
      }
      sudoers := content;
      ok := true;
    }
  }

  lemma SettingsNext(ls: seq<string>, i: nat)
    requires i < |ls|
    ensures Settings(ls[..i + 1])
            == if SettingOf(ls[i]) == None then Settings(ls[..i])
               else Settings(ls[..i])[SettingOf(ls[i]).value.key := SettingOf(ls[i]).value.value]
  {
    assert ls[..i + 1][..i] == ls[..i];
  }

  lemma EntriesNext(before: seq<string>, ls: seq<string>, i: nat)
    requires i < |ls|
    ensures before + Entries(ls[..i + 1])
            == if Entry(ls[i]) == None then before + Entries(ls[..i])
               else before + Entries(ls[..i]) + [Entry(ls[i]).value]
  {
    assert ls[..i + 1][..i] == ls[..i];
  }

  lemma SSHLinesNext(keys: seq<string>, state: map<string, string>, i: nat)
    requires i < |keys| && forall k :: k in keys ==> k in state
    ensures forall k :: k in keys[..i + 1] ==> k in state
    ensures Unlines(SSHLines(keys[..i + 1], state))
            == Unlines(SSHLines(keys[..i], state)) + (keys[i] + " " + state[keys[i]] + "\n")
  {
    assert keys[..i + 1][..i] == keys[..i] && keys[i] in keys;
    var last := keys[i] + " " + state[keys[i]];
    UnlinesConcat(SSHLines(keys[..i], state), [last]);
    assert Unlines([last]) == last + "\n" + "";
  }

  lemma AllEntriesNext(before: seq<string>, files: seq<string>, i: nat)
    requires i < |files|
    ensures before + AllEntries(files[..i + 1]) == before + AllEntries(files[..i]) + FileEntries(files[i])
  {
    assert files[..i + 1][..i] == files[..i];
  }

  // ------------------------------------------------- sshd_config comes back

  /** Settings a printed line gives back. */
  predicate Plain(key: string, value: string) {
    && key != "" && key[0] != '#' && !IsSpace(key[0]) && ' ' !in key && '\n' !in key
    && value != "" && Trimmed(value) && '\n' !in value
  }

  lemma SettingIsPlain(line: string)
    requires '\n' !in line && SettingOf(line).Some?
    ensures Plain(SettingOf(line).value.key, SettingOf(line).value.value)
  {
    TrimKeeps(line, '\n');
    SettingInIsPlain(TrimSpace(line));
  }

  lemma SettingInIsPlain(t: string)
    requires Trimmed(t) && '\n' !in t && SettingIn(t).Some?
    ensures Plain(SettingIn(t).value.key, SettingIn(t).value.value)
  {
    var i := BlankOf(t);
    SplitIsPlain(t, i);
  }

  lemma BlankOf(t: string) returns (i: nat)
    requires SettingIn(t).Some?
    ensures t != "" && t[0] != '#' && i < |t| && t[i] == ' ' && ' ' !in t[..i]
    ensures SettingIn(t) == Some(Setting(t[..i], TrimSpace(t[i + 1..])))
  {
    i := IndexChar(t, ' ');
  }

  lemma SplitIsPlain(t: string, i: nat)
    requires Trimmed(t) && t != "" && t[0] != '#' && '\n' !in t
    requires i < |t| && t[i] == ' ' && ' ' !in t[..i]
    ensures Plain(t[..i], TrimSpace(t[i + 1..]))
  {
    var rest := t[i + 1..];
    assert rest[|rest| - 1] == t[|t| - 1];
    NotAllSpace(rest);
    assert t[..i][0] == t[0];
  }

  lemma NotAllSpace(s: string)
    requires s != "" && !IsSpace(s[|s| - 1])
    ensures TrimSpace(s) != ""
  {
    LeftKeepsLast(s);
  }

  lemma {:induction false} LeftKeepsLast(s: string)
    requires s != "" && !IsSpace(s[|s| - 1])
    ensures TrimLeft(s) != "" && TrimLeft(s)[|TrimLeft(s)| - 1] == s[|s| - 1]
  {
    if IsSpace(s[0]) {
      LeftKeepsLast(s[1..]);
    }
  }

  lemma SettingOfTrimmed(t: string, i: nat)
    requires Trimmed(t) && t != "" && t[0] != '#' && IndexChar(t, ' ') == i
    ensures SettingOf(t) == Some(Setting(t[..i], TrimSpace(t[i + 1..])))
  {
  }

  lemma BlankSplits(key: string, value: string)
    requires ' ' !in key
    ensures var t := key + " " + value;
            IndexChar(t, ' ') == |key| && t[..|key|] == key && t[|key| + 1..] == value
  {
    IndexCharIs(key, ' ', value);
    assert key + [' '] + value == key + " " + value;
  }

  lemma PlainIsPrintable(key: string, value: string)
    requires Plain(key, value)
    ensures Trimmed(key + " " + value) && Printable(key + " " + value)
  {
    var t := key + " " + value;
    assert t[0] == key[0] && t[|t| - 1] == value[|value| - 1];
  }

  lemma PlainReadsBack(key: string, value: string)
    requires Plain(key, value)
    ensures SettingOf(key + " " + value) == Some(Setting(key, value)) && Printable(key + " " + value)
  {
    PlainIsPrintable(key, value);
    BlankSplits(key, value);
    assert (key + " " + value)[0] == key[0];
    SettingOfTrimmed(key + " " + value, |key|);
  }

  lemma {:induction false} CapturedIsPlain(ls: seq<string>)
    requires forall l :: l in ls ==> '\n' !in l
    ensures forall k :: k in Settings(ls) ==> Plain(k, Settings(ls)[k])
  {
    if ls != [] {
      CapturedIsPlain(ls[..|ls| - 1]);
      if SettingOf(ls[|ls| - 1]).Some? {
        SettingIsPlain(ls[|ls| - 1]);
      }
    }
  }

  lemma SettingsAppend(ls: seq<string>, key: string, value: string)
    requires Plain(key, value)
    ensures Settings(ls + [key + " " + value]) == Settings(ls)[key := value]
  {
    var all := ls + [key + " " + value];
    assert all[..|all| - 1] == ls;
    PlainReadsBack(key, value);
  }

  /** Printed settings are read back, whatever their order. */
  lemma {:induction false} SettingsOfPrinted(keys: seq<string>, state: map<string, string>)
    requires forall k :: k in keys ==> k in state && Plain(k, state[k])
    ensures forall k :: k in Settings(SSHLines(keys, state)) <==> k in keys
    ensures forall k :: k in keys ==> Settings(SSHLines(keys, state))[k] == state[k]
  {
    if keys != [] {
      var front, last := keys[..|keys| - 1], keys[|keys| - 1];
      assert last in keys && forall k :: k in keys <==> k in front || k == last;
      SettingsOfPrinted(front, state);
      SettingsAppend(SSHLines(front, state), last, state[last]);
    }
  }

  lemma PrintedScans(keys: seq<string>, state: map<string, string>)
    requires forall k :: k in keys ==> k in state && Plain(k, state[k])
    ensures ScanLines(Unlines(SSHLines(keys, state))) == SSHLines(keys, state)
  {
    var ls := SSHLines(keys, state);
    forall l | l in ls ensures Printable(l) {
      var i :| 0 <= i < |ls| && ls[i] == l;
      assert keys[i] in keys;
      PlainReadsBack(keys[i], state[keys[i]]);
    }
    ScanOfUnlines(ls);
  }

  lemma PrintedIsCaptured(keys: seq<string>, state: map<string, string>)
    requires Lists(keys, state) && forall k :: k in state ==> Plain(k, state[k])
    requires forall k :: k in keys ==> k in state
    ensures CapturedSSH(Unlines(SSHLines(keys, state))) == state
  {
    ListsAll(keys, state);
    PrintedScans(keys, state);
    SettingsOfPrinted(keys, state);
    SameMap(Settings(SSHLines(keys, state)), state);
  }

  lemma SameMap(a: map<string, string>, b: map<string, string>)
    requires (forall k :: k in a <==> k in b) && forall k :: k in b ==> a[k] == b[k]
    ensures a == b
  {
  }

  /** A state is captured from its own printed file exactly when all its settings are
      plain: keys without blanks, comments or newlines, trimmed values that are not empty. */
  lemma SSHReadsBackExactly(text: string, state: map<string, string>)
    requires PrintsSSH(text, state)
    ensures CapturedSSH(text) == state <==> forall k :: k in state ==> Plain(k, state[k])
  {
    if CapturedSSH(text) == state {
      CapturedIsPlain(ScanLines(text));
    }
    var keys :| Lists(keys, state) && (forall k :: k in keys ==> k in state) && text == Unlines(SSHLines(keys, state));
    if forall k :: k in state ==> Plain(k, state[k]) {
      PrintedIsCaptured(keys, state);
    }
  }

  /** So remediation converges for every file: what is captured, written back and captured
      again is the same. */
  lemma SSHConverges(text: string, restored: string)
    requires PrintsSSH(restored, CapturedSSH(text))
    ensures CapturedSSH(restored) == CapturedSSH(text)
  {
    CapturedIsPlain(ScanLines(text));
    SSHReadsBackExactly(restored, CapturedSSH(text));
  }

  /** The order in which the map is listed leaves no trace in the file. */
  lemma SSHPrintsOnce(a: string, b: string, state: map<string, string>)
    requires PrintsSSH(a, state) && PrintsSSH(b, state)
    ensures a == b
  {
    var x :| Lists(x, state) && (forall k :: k in x ==> k in state) && a == Unlines(SSHLines(x, state));
    var y :| Lists(y, state) && (forall k :: k in y ==> k in state) && b == Unlines(SSHLines(y, state));
    OrderedUnique(x, y);
  }

  // ------------------------------------------------- which settings are read

  /** The line gives the key this value: the two with a blank between them, and more blanks
      anywhere around the value and the line. */
  ghost predicate Gives(line: string, key: string, value: string) {
    Plain(key, value)
    && exists before, between, after ::
         AllSpace(before) && AllSpace(between) && AllSpace(after)
         && line == before + (key + " " + (between + value)) + after
  }

  lemma GivenIsRead(before: string, key: string, between: string, value: string, after: string)
    requires AllSpace(before) && AllSpace(between) && AllSpace(after) && Plain(key, value)
    ensures SettingOf(before + (key + " " + (between + value)) + after) == Some(Setting(key, value))
  {
    var t := key + " " + (between + value);
    assert t[0] == key[0] && t[|t| - 1] == value[|value| - 1];
    TrimSpaceIs(before, t, after);
    BlankSplits(key, between + value);
    TrimSpaceIs(between, value, "");
    assert between + value + "" == between + value;
  }

  lemma EndsInBlank(a: string, r: string)
    requires AllSpace(r)
    ensures r != "" ==> IsSpace((a + r)[|a + r| - 1])
  {
    assert r != "" ==> (a + r)[|a + r| - 1] == r[|r| - 1] && r[|r| - 1] in r;
  }

  lemma OnlyBlanksBefore(rest: string) returns (between: string)
    requires rest != "" && !IsSpace(rest[|rest| - 1])
    ensures AllSpace(between) && rest == between + TrimSpace(rest)
  {
    var l, r := TrimSpaceLeaves(rest);
    EndsInBlank(l + TrimSpace(rest), r);
    between := l;
    assert l + TrimSpace(rest) + "" == l + TrimSpace(rest);
  }

  lemma AtBlank(t: string, i: nat)
    requires i < |t| && t[i] == ' ' && !IsSpace(t[|t| - 1])
    ensures var rest := t[i + 1..];
            t == t[..i] + " " + rest && rest != "" && !IsSpace(rest[|rest| - 1])
  {
    var rest := t[i + 1..];
    assert rest[|rest| - 1] == t[|t| - 1];
  }

  lemma TrimmedIsGiven(t: string) returns (between: string)
    requires Trimmed(t) && SettingIn(t).Some?
    ensures var s := SettingIn(t).value; AllSpace(between) && t == s.key + " " + (between + s.value)
  {
    var i := BlankOf(t);
    var rest := t[i + 1..];
    AtBlank(t, i);
    between := OnlyBlanksBefore(rest);
  }

  lemma ReadIsGiven(line: string)
    requires '\n' !in line && SettingOf(line).Some?
    ensures Gives(line, SettingOf(line).value.key, SettingOf(line).value.value)
  {
    SettingIsPlain(line);
    var before, after := TrimSpaceLeaves(line);
    var between := TrimmedIsGiven(TrimSpace(line));
  }

  /** A line is read as a setting exactly when it gives it. */
  lemma SettingExactly(line: string, key: string, value: string)
    requires '\n' !in line
    ensures SettingOf(line) == Some(Setting(key, value)) <==> Gives(line, key, value)
  {
    if SettingOf(line) == Some(Setting(key, value)) {
      ReadIsGiven(line);
    }
    if Gives(line, key, value) {
      var before, between, after :| AllSpace(before) && AllSpace(between) && AllSpace(after)
        && line == before + (key + " " + (between + value)) + after;
      GivenIsRead(before, key, between, value, after);
    }
  }

  /** The line that decides about a key: it gives the value and no later one gives any. */
  ghost predicate Decides(ls: seq<string>, i: nat, key: string, value: string)
    requires i < |ls|
  {
    Gives(ls[i], key, value) && forall j, v :: i < j < |ls| ==> !Gives(ls[j], key, v)
  }

  ghost predicate Decided(ls: seq<string>, key: string, value: string) {
    exists i :: 0 <= i < |ls| && Decides(ls, i, key, value)
  }

  lemma DecidedLast(front: seq<string>, last: string, key: string, value: string)
    ensures Decided(front + [last], key, value)
            <==> Gives(last, key, value) || ((forall v :: !Gives(last, key, v)) && Decided(front, key, value))
  {
    var ls := front + [last];
    assert ls[|front|] == last && forall i :: 0 <= i < |front| ==> ls[i] == front[i];
    if Gives(last, key, value) {
      assert Decides(ls, |front|, key, value);
    }
    if i :| 0 <= i < |front| && Decides(front, i, key, value) && forall v :: !Gives(last, key, v) {
      assert Decides(ls, i, key, value);
    }
    if i :| 0 <= i <= |front| && Decides(ls, i, key, value) && i != |front| {
      assert forall v :: !Gives(ls[|front|], key, v);
      assert Decides(front, i, key, value);
    }
  }

  predicate Holds(m: map<string, string>, key: string, value: string) {
    key in m && m[key] == value
  }

  lemma SettingsOneMore(front: seq<string>, last: string)
    ensures Settings(front + [last])
            == if SettingOf(last) == None then Settings(front)
               else Settings(front)[SettingOf(last).value.key := SettingOf(last).value.value]
  {
    var all := front + [last];
    SettingsNext(all, |front|);
    assert all[..|front| + 1] == all && all[..|front|] == front;
  }

  lemma LastWins(front: seq<string>, last: string, key: string, value: string)
    ensures Holds(Settings(front + [last]), key, value)
            <==> SettingOf(last) == Some(Setting(key, value))
                 || (!Sets(last, key) && Holds(Settings(front), key, value))
  {
    SettingsOneMore(front, last);
  }

  predicate Sets(line: string, key: string) {
    SettingOf(line).Some? && SettingOf(line).value.key == key
  }

  lemma SetsExactly(line: string, key: string)
    requires '\n' !in line
    ensures !Sets(line, key) <==> forall v :: !Gives(line, key, v)
  {
    if Sets(line, key) {
      SettingExactly(line, key, SettingOf(line).value.value);
    } else {
      forall v ensures !Gives(line, key, v) {
        SettingExactly(line, key, v);
      }
    }
  }

  lemma SettingsLast(front: seq<string>, last: string, key: string, value: string)
    requires '\n' !in last
    ensures Holds(Settings(front + [last]), key, value)
            <==> Gives(last, key, value) || ((forall v :: !Gives(last, key, v)) && Holds(Settings(front), key, value))
  {
    LastWins(front, last, key, value);
    SettingExactly(last, key, value);
    SetsExactly(last, key);
  }

  lemma {:induction false} SettingsExactly(ls: seq<string>, key: string, value: string)
    requires forall l :: l in ls ==> '\n' !in l
    ensures Holds(Settings(ls), key, value) <==> Decided(ls, key, value)
  {
    if ls != [] {
      var front, last := ls[..|ls| - 1], ls[|ls| - 1];
      assert ls == front + [last] && '\n' !in last;
      SettingsExactly(front, key, value);
      DecidedLast(front, last, key, value);
      SettingsLast(front, last, key, value);
    }
  }

  /** The capture of a file holds a setting exactly when a line gives it and no later line
      gives its key another time. */
  lemma CapturedExactly(text: string, key: string, value: string)
    ensures Holds(CapturedSSH(text), key, value) <==> Decided(ScanLines(text), key, value)
  {
    SettingsExactly(ScanLines(text), key, value);
  }

  // ----------------------------------------------------- sudoers comes back

  /** Entries a printed line gives back. */
  predicate PlainEntry(e: string) {
    '\n' !in e && IsEntry(e)
  }

  /** A trimmed line that says something other than a comment or a default. */
  predicate IsEntry(t: string) {
    Trimmed(t) && t != "" && t[0] != '#' && !("Defaults" <= t)
  }

  /** The lines that are entries, without the blanks around them. */
  function EntryTexts(ls: seq<Padded>): seq<string> {
    if ls == [] then []
    else EntryTexts(ls[..|ls| - 1]) + if IsEntry(ls[|ls| - 1].text) then [ls[|ls| - 1].text] else []
  }

  lemma {:induction false} EntriesOfShown(ls: seq<Padded>)
    requires forall l :: l in ls ==> WellPadded(l)
    ensures Entries(ShownAll(ls)) == EntryTexts(ls)
  {
    if ls != [] {
      var front, last := ls[..|ls| - 1], ls[|ls| - 1];
      assert last in ls;
      EntriesOfShown(front);
      TrimSpaceIs(last.before, last.text, last.after);
      assert ShownAll(ls)[..|ls| - 1] == ShownAll(front);
    }
  }

  /** What a capture takes from a file: of every line the text between its blanks, unless that
      is empty, a comment or a default, and all of these in their order. */
  lemma EntriesExactly(text: string) returns (ls: seq<Padded>)
    ensures |ls| == |Between(text)| && forall i :: 0 <= i < |ls| ==> WellPadded(ls[i]) && Shown(ls[i]) == DropCR(Between(text)[i])
    ensures FileEntries(text) == EntryTexts(ls)
  {
    ScanIsBetween(text);
    ls := PadAll(ScanLines(text));
    EntriesOfShown(ls);
  }

  lemma {:induction false} EntriesArePlain(ls: seq<string>)
    requires forall l :: l in ls ==> '\n' !in l
    ensures forall e :: e in Entries(ls) ==> PlainEntry(e)
  {
    if ls != [] {
      EntriesArePlain(ls[..|ls| - 1]);
      var l := ls[|ls| - 1];
      if Entry(l).Some? {
        assert '\n' !in l;
        TrimKeeps(l, '\n');
      }
    }
  }

  lemma {:induction false} AllEntriesArePlain(files: seq<string>)
    ensures forall e :: e in AllEntries(files) ==> PlainEntry(e)
  {
    if files != [] {
      AllEntriesArePlain(files[..|files| - 1]);
      EntriesArePlain(ScanLines(files[|files| - 1]));
    }
  }

  lemma {:induction false} EntriesOfPlain(ls: seq<string>)
    requires forall e :: e in ls ==> PlainEntry(e)
    ensures Entries(ls) == ls
  {
    if ls != [] {
      var front, last := ls[..|ls| - 1], ls[|ls| - 1];
      assert front + [last] == ls;
      assert PlainEntry(last);
      EntriesOfPlain(front);
    }
  }

  lemma {:induction false} EntriesConcat(a: seq<string>, b: seq<string>)
    ensures Entries(a + b) == Entries(a) + Entries(b)
  {
    if b == [] {
      assert a + b == a;
    } else {
      assert (a + b)[..|a + b| - 1] == a + b[..|b| - 1];
      EntriesConcat(a, b[..|b| - 1]);
    }
  }

  /** Lines the capture passes over. */
  predicate Skipped(l: string) {
    Trimmed(l) && Printable(l) && (l == "" || l[0] == '#' || "Defaults" <= l)
  }

  lemma DefaultsAreSkipped(sep: string, setting: string)
    requires setting != "" && !IsSpace(setting[|setting| - 1]) && '\n' !in sep + setting
    ensures Skipped("Defaults" + sep + setting)
  {
    var l := "Defaults" + sep + setting;
    assert l[0] == 'D' && l[|l| - 1] == setting[|setting| - 1];
    assert l[..8] == "Defaults";
    assert '\n' !in "Defaults";
    assert l == "Defaults" + (sep + setting);
  }

  lemma RemarkIsSkipped()
    ensures Skipped(REMARK) && Skipped("")
  {
  }

  lemma PathsAreSkipped()
    ensures Skipped("Defaults" + "\\t" + PATHS)
  {
    assert '\n' !in PATHS && '\n' !in "\\t";
    DefaultsAreSkipped("\\t", PATHS);
  }

  lemma HeaderIsSkipped()
    ensures forall h :: h in HEADER ==> Skipped(h)
  {
    RemarkIsSkipped();
    DefaultsAreSkipped("\t", ENV_RESET);
    DefaultsAreSkipped("\t", BADPASS);
    PathsAreSkipped();
  }

  lemma {:induction false} NothingEntered(ls: seq<string>)
    requires forall l :: l in ls ==> Skipped(l)
    ensures Entries(ls) == []
  {
    if ls != [] {
      assert Skipped(ls[|ls| - 1]);
      NothingEntered(ls[..|ls| - 1]);
    }
  }

  lemma {:induction false} JoinIsUnlines(ls: seq<string>)
    requires ls != []
    ensures Join(ls, '\n') + "\n" == Unlines(ls)
  {
    if |ls| == 1 {
      assert Unlines(ls) == ls[0] + "\n" + "";
    } else {
      JoinIsUnlines(ls[1..]);
    }
  }

  lemma EntriesAfterHeader(header: seq<string>, entries: seq<string>)
    requires (forall h :: h in header ==> Skipped(h)) && header != []
    requires forall e :: e in entries ==> PlainEntry(e)
    ensures FileEntries(Join(header + entries, '\n') + "\n") == entries
  {
    var ls := header + entries;
    JoinIsUnlines(ls);
    forall l | l in ls ensures Printable(l) {
      assert l in header || l in entries;
    }
    ScanOfUnlines(ls);
    EntriesConcat(header, entries);
    NothingEntered(header);
    EntriesOfPlain(entries);
    assert [] + entries == entries;
  }

  /** The capture passes over every line of the header. */
  lemma PrintedEntries(entries: seq<string>)
    requires forall e :: e in entries ==> PlainEntry(e)
    ensures FileEntries(PrintedSudoers(entries)) == entries
  {
    HeaderIsSkipped();
    EntriesAfterHeader(HEADER, entries);
  }

  lemma CapturedElements(sudoers: string, dropIns: seq<string>)
    ensures multiset(CapturedSudoers(sudoers, dropIns)) == multiset(FileEntries(sudoers)) + multiset(AllEntries(dropIns))
    ensures forall e :: e in CapturedSudoers(sudoers, dropIns) ==> PlainEntry(e)
  {
    var all := FileEntries(sudoers) + AllEntries(dropIns);
    SortSorts(all);
    EntriesArePlain(ScanLines(sudoers));
    AllEntriesArePlain(dropIns);
    forall e | e in Sort(all) ensures PlainEntry(e) {
      SameElements(Sort(all), all, e);
    }
  }

  lemma DropInsLast(front: seq<string>, last: string, e: string)
    ensures e in AllEntries(front + [last]) <==> e in AllEntries(front) || e in FileEntries(last)
  {
    assert (front + [last])[..|front|] == front;
  }

  ghost predicate InSome(files: seq<string>, e: string) {
    exists f :: f in files && e in FileEntries(f)
  }

  lemma InSomeLast(front: seq<string>, last: string, e: string)
    ensures InSome(front + [last], e) <==> InSome(front, e) || e in FileEntries(last)
  {
    assert forall f :: f in front + [last] <==> f in front || f == last;
  }

  lemma {:induction false} EntriesOfDropIns(files: seq<string>, e: string)
    ensures e in AllEntries(files) <==> InSome(files, e)
  {
    if files != [] {
      var front, last := files[..|files| - 1], files[|files| - 1];
      assert files == front + [last];
      EntriesOfDropIns(front, e);
      DropInsLast(front, last, e);
      InSomeLast(front, last, e);
    }
  }

  /** A capture lists what some file has an entry for, sudoers or a drop-in, and sorted. */
  lemma CapturedFromFiles(sudoers: string, dropIns: seq<string>, e: string)
    ensures e in CapturedSudoers(sudoers, dropIns) <==> InSome([sudoers] + dropIns, e)
    ensures Ordered(CapturedSudoers(sudoers, dropIns))
  {
    var all := FileEntries(sudoers) + AllEntries(dropIns);
    SortSorts(all);
    SameElements(Sort(all), all, e);
    EntriesOfDropIns(dropIns, e);
    assert sudoers in [sudoers] + dropIns;
  }

  /** Without drop-ins a list of entries is captured from its own file, sorted, exactly when
      all of them are plain. */
  lemma SudoersReadBackExactly(entries: seq<string>)
    ensures CapturedSudoers(PrintedSudoers(entries), []) == Sort(entries)
            <==> forall e :: e in entries ==> PlainEntry(e)
  {
    var text := PrintedSudoers(entries);
    if forall e :: e in entries ==> PlainEntry(e) {
      PrintedEntries(entries);
      assert entries + [] == entries;
    } else {
      CapturedElements(text, []);
      SortSorts(entries);
      var e :| e in entries && !PlainEntry(e);
      SameElements(entries, Sort(entries), e);
    }
  }

  /** Remediation of sudoers converges exactly when the drop-ins hold no entries: those are
      captured, written into sudoers, and captured a second time from where they are. */
  lemma SudoersConvergesExactly(sudoers: string, dropIns: seq<string>)
    ensures var captured := CapturedSudoers(sudoers, dropIns);
            CapturedSudoers(PrintedSudoers(captured), dropIns) == captured <==> AllEntries(dropIns) == []
  {
    var captured, more := CapturedSudoers(sudoers, dropIns), AllEntries(dropIns);
    CapturedElements(sudoers, dropIns);
    PrintedEntries(captured);
    SortDependsOnElements(captured + more, FileEntries(sudoers) + more);
    Doubled(captured, more);
  }

  lemma Doubled(a: seq<string>, b: seq<string>)
    ensures multiset(a + b) == multiset(a) <==> b == []
  {
    assert |multiset(a + b)| == |a| + |b| && |multiset(a)| == |a|;
    if b == [] {
      assert a + b == a;
    }
  }
}
