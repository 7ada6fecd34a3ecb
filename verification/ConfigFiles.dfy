/**
 Backup, update and restore of configuration files during a password rotation.  Only the
 names of the backups are handed on, joined with commas.
 */
module ConfigFiles {
  import opened Text
  import opened Credentials

  type Files = map<string, string>

  const MARK := ".nexplane-bak-"

  function Dest(path: string, stamp: string): string {
    path + MARK + stamp
  }

  /** A path to back up and the time it is done at. */
  datatype Job = Job(path: string, stamp: string)

  function Dests(jobs: seq<Job>): (r: seq<string>)
    ensures |r| == |jobs| && forall i :: 0 <= i < |jobs| ==> r[i] == Dest(jobs[i].path, jobs[i].stamp)
  {
    if jobs == [] then [] else [Dest(jobs[0].path, jobs[0].stamp)] + Dests(jobs[1..])
  }

  /** What a loop over files leaves behind, and whether it reached the end. */
  datatype Outcome = Outcome(files: Files, ok: bool)

  function Backed(files: Files, jobs: seq<Job>, writable: string -> bool): Outcome
    decreases |jobs|
  {
    if jobs == [] then Outcome(files, true)
    else
      var path, dest := jobs[0].path, Dest(jobs[0].path, jobs[0].stamp);
      if path in files && writable(dest) then Backed(files[dest := files[path]], jobs[1..], writable)
      else Outcome(files, false)
  }

  function Updated(files: Files, paths: seq<string>, password: string, writable: string -> bool): Outcome
    decreases |paths|
  {
    if paths == [] then Outcome(files, true)
    else
      var path := paths[0];
      if path in files && writable(path) then
        Updated(files[path := Rotated(files[path], password)], paths[1..], password, writable)
      else Outcome(files, false)
  }

  /** The path a backup's name leads back to. */
  function Original(bak: string): Option<string> {
    var b := TrimSpace(bak);
    var idx := LastIndex(b, MARK);
    if idx == -1 then None else Some(b[..idx])
  }

  function Restored(files: Files, baks: seq<string>, writable: string -> bool): Outcome
    decreases |baks|
  {
    if baks == [] then Outcome(files, true)
    else
      var b, original := TrimSpace(baks[0]), Original(baks[0]);
      if original.Some? && b in files && writable(original.value) then
        Restored(files[original.value := files[b]], baks[1..], writable)
      else Outcome(files, false)
  }

  lemma BackedNext(files: Files, jobs: seq<Job>, i: nat, writable: string -> bool)
    requires i < |jobs|
    ensures var path, dest := jobs[i].path, Dest(jobs[i].path, jobs[i].stamp);
            Backed(files, jobs[i..], writable)
            == if path in files && writable(dest) then Backed(files[dest := files[path]], jobs[i + 1..], writable)
               else Outcome(files, false)
  {
    assert jobs[i..][1..] == jobs[i + 1..];
  }

  lemma DestsNext(front: seq<string>, jobs: seq<Job>, i: nat)
    requires i < |jobs|
    ensures front + Dests(jobs[i..]) == front + [Dest(jobs[i].path, jobs[i].stamp)] + Dests(jobs[i + 1..])
    ensures front + Dests([]) == front
  {
    assert jobs[i..][1..] == jobs[i + 1..];
  }

  /** The agent's view of the file system; `writable` tells which writes succeed. */
  class FileSystem {
    var files: Files

    constructor (fs: Files)
      ensures files == fs
    {
      files := fs;
    }

    /** `backupConfigFiles`. */
    method BackupConfigFiles(jobs: seq<Job>, writable: string -> bool) returns (joined: Option<string>)
      modifies this
      ensures files == Backed(old(files), jobs, writable).files
      ensures joined == if Backed(old(files), jobs, writable).ok then Some(Join(Dests(jobs), ',')) else None
    {
      var backups: seq<string> := [];
      for i := 0 to |jobs|
        invariant Backed(files, jobs[i..], writable) == Backed(old(files), jobs, writable)
        invariant backups + Dests(jobs[i..]) == Dests(jobs)
      {
        BackedNext(files, jobs, i, writable);
        DestsNext(backups, jobs, i);
        var dest := jobs[i].path + MARK + jobs[i].stamp;
        if jobs[i].path !in files {
          return None;
        }
        if !writable(dest) {
          return None;
        }
        files := files[dest := files[jobs[i].path]];
        backups := backups + [dest];
      }
      assert jobs[|jobs|..] == [];
      assert backups + Dests([]) == backups;
      joined := Some(Join(backups, ','));
    }

    /** `updateConfigFiles`. */
    method UpdateConfigFiles(paths: seq<string>, newPassword: string, username: string, writable: string -> bool)
      returns (ok: bool)
      modifies this
      ensures Outcome(files, ok) == Updated(old(files), paths, newPassword, writable)
    {
      for i := 0 to |paths|
        invariant Updated(files, paths[i..], newPassword, writable) == Updated(old(files), paths, newPassword, writable)
      {
        assert paths[i..][1..] == paths[i + 1..];
        if paths[i] !in files {
          return false;
        }
        var updated := ReplaceCredentialInContent(files[paths[i]], username, newPassword);
        if !writable(paths[i]) {
          return false;
        }
        files := files[paths[i] := updated];
      }
      return true;
    }

    /** `restoreConfigFiles`. */
    method RestoreConfigFiles(backupPaths: seq<string>, writable: string -> bool) returns (ok: bool)
      modifies this
      ensures Outcome(files, ok) == Restored(old(files), backupPaths, writable)
    {
      for i := 0 to |backupPaths|
        invariant Restored(files, backupPaths[i..], writable) == Restored(old(files), backupPaths, writable)
      {
        assert backupPaths[i..][1..] == backupPaths[i + 1..];
        var bak := TrimSpace(backupPaths[i]);
        var idx := LastIndex(bak, MARK);
        if idx == -1 {
          return false;
        }
        var original := bak[..idx];
        if bak !in files {
          return false;
        }
        if !writable(original) {
          return false;
        }
        files := files[original := files[bak]];
      }
      return true;
    }
  }

  // ------------------------------------------------------------ backup names

  /** A time printed as 20060102T150405. */
  predicate Stamp(s: string) {
    |s| == 15 && forall c :: c in s ==> IsDigit(c) || c == 'T'
  }

  /** A path whose backup name survives joining, splitting and trimming. */
  predicate PlainPath(p: string) {
    ',' !in p && (p == "" || !IsSpace(p[0]))
  }

  lemma OneMark(p: string, stamp: string, i: int)
    requires Stamp(stamp) && i > |p|
    ensures !OccursAt(Dest(p, stamp), MARK, i)
  {
    var s := Dest(p, stamp);
    if i <= |s| - |MARK| {
      assert s[i..i + |MARK|][0] == s[i];
      if i < |p| + |MARK| {
        assert s[i] == MARK[i - |p|];
      } else {
        assert s[i] == stamp[i - |p| - |MARK|] && s[i] in stamp;
      }
    }
  }

  lemma MarkAt(p: string, stamp: string)
    ensures OccursAt(Dest(p, stamp), MARK, |p|) && Dest(p, stamp)[..|p|] == p
  {
    var s := Dest(p, stamp);
    assert s == p + (MARK + stamp);
    assert s[|p|..] == MARK + stamp;
    assert s[|p|..|p| + |MARK|] == MARK;
  }

  lemma LastMark(p: string, stamp: string)
    requires Stamp(stamp)
    ensures LastIndex(Dest(p, stamp), MARK) == |p|
  {
    MarkAt(p, stamp);
    forall i | i > |p| ensures !OccursAt(Dest(p, stamp), MARK, i) {
      OneMark(p, stamp, i);
    }
    LastIndexIs(Dest(p, stamp), MARK, |p|);
  }

  lemma DestIsTrimmed(p: string, stamp: string)
    requires Stamp(stamp) && PlainPath(p)
    ensures Trimmed(Dest(p, stamp)) && ',' !in Dest(p, stamp)
  {
    var s := Dest(p, stamp);
    assert s[|s| - 1] == stamp[14] && stamp[14] in stamp;
    assert s[0] == if p == "" then MARK[0] else p[0];
    assert ',' !in MARK;
  }

  /** The last marker of a backup's name ends the path it was made from. */
  lemma OriginalOfDest(p: string, stamp: string)
    requires Stamp(stamp) && PlainPath(p)
    ensures TrimSpace(Dest(p, stamp)) == Dest(p, stamp)
    ensures Original(Dest(p, stamp)) == Some(p)
    ensures ',' !in Dest(p, stamp)
  {
    DestIsTrimmed(p, stamp);
    LastMark(p, stamp);
    MarkAt(p, stamp);
  }

  /** So different paths have different backups, whatever the times. */
  lemma BackupsAreDistinct(p: string, q: string, s: string, t: string)
    requires Stamp(s) && Stamp(t) && PlainPath(p) && PlainPath(q)
    ensures Dest(p, s) == Dest(q, t) ==> p == q && s == t
  {
    OriginalOfDest(p, s);
    OriginalOfDest(q, t);
    if Dest(p, s) == Dest(q, t) {
      assert Dest(p, s)[|p| + |MARK|..] == s;
      assert Dest(q, t)[|q| + |MARK|..] == t;
    }
  }

  predicate Sound(jobs: seq<Job>) {
    forall j :: j in jobs ==> PlainPath(j.path) && Stamp(j.stamp)
  }

  /** No path of the list is the name of a backup. */
  predicate Apart(jobs: seq<Job>) {
    forall j, k :: j in jobs && k in jobs ==> j.path != Dest(k.path, k.stamp)
  }

  /** The list read back from the joined names is the list of names, exactly when there
      are any. */
  lemma NamesReadBack(jobs: seq<Job>)
    requires Sound(jobs)
    ensures Split(Join(Dests(jobs), ','), ',') == Dests(jobs) <==> jobs != []
  {
    forall d | d in Dests(jobs) ensures ',' !in d {
      var i :| 0 <= i < |jobs| && Dests(jobs)[i] == d;
      assert jobs[i] in jobs;
      OriginalOfDest(jobs[i].path, jobs[i].stamp);
    }
    SplitInvertsJoinExactly(Dests(jobs), ',');
  }

  // ------------------------------------------------------------------ backup

  /** Some job of the list writes this name. */
  predicate Written(jobs: seq<Job>, name: string) {
    exists j :: j in jobs && Dest(j.path, j.stamp) == name
  }

  predicate HasBackups(files: Files, before: Files, jobs: seq<Job>) {
    forall j :: j in jobs ==> j.path in before && Dest(j.path, j.stamp) in files
                              && files[Dest(j.path, j.stamp)] == before[j.path]
  }

  ghost predicate SameExcept(a: Files, b: Files, jobs: seq<Job>) {
    forall name :: !Written(jobs, name) ==> (name in a <==> name in b) && (name in a ==> a[name] == b[name])
  }

  lemma WrittenSplit(jobs: seq<Job>, name: string)
    requires jobs != []
    ensures Written(jobs, name) <==> Dest(jobs[0].path, jobs[0].stamp) == name || Written(jobs[1..], name)
  {
    assert forall j :: j in jobs <==> j == jobs[0] || j in jobs[1..];
    assert jobs[0] in jobs;
  }

  /** A finished backup holds the contents of every path and changes nothing else. */
  lemma {:induction false} BackupHolds(files: Files, all: seq<Job>, jobs: seq<Job>, writable: string -> bool)
    requires Sound(all) && Apart(all) && (forall j :: j in jobs ==> j in all)
    requires Backed(files, jobs, writable).ok
    ensures HasBackups(Backed(files, jobs, writable).files, files, jobs)
    ensures SameExcept(Backed(files, jobs, writable).files, files, jobs)
    decreases |jobs|
  {
    if jobs != [] {
      var j, rest := jobs[0], jobs[1..];
      var next := files[Dest(j.path, j.stamp) := files[j.path]];
      assert j in jobs && forall k :: k in rest ==> k in jobs;
      BackupHolds(next, all, rest, writable);
      FirstBackupStays(files, all, jobs, writable);
      OneMoreBackup(Backed(next, rest, writable).files, files, next, all, jobs);
    }
  }

  lemma OneMoreBackup(m: Files, files: Files, next: Files, all: seq<Job>, jobs: seq<Job>)
    requires Apart(all) && (forall j :: j in jobs ==> j in all) && jobs != [] && jobs[0].path in files
    requires var dest := Dest(jobs[0].path, jobs[0].stamp);
             next == files[dest := files[jobs[0].path]] && dest in m && m[dest] == files[jobs[0].path]
    requires HasBackups(m, next, jobs[1..]) && SameExcept(m, next, jobs[1..])
    ensures HasBackups(m, files, jobs) && SameExcept(m, files, jobs)
  {
    forall name | !Written(jobs, name) ensures (name in m <==> name in files) && (name in m ==> m[name] == files[name]) {
      WrittenSplit(jobs, name);
    }
    forall j | j in jobs
      ensures j.path in files && Dest(j.path, j.stamp) in m && m[Dest(j.path, j.stamp)] == files[j.path]
    {
      assert j in all && jobs[0] in all;
      assert j == jobs[0] || j in jobs[1..];
    }
  }

  /** A later backup either is of another path or holds the same contents. */
  lemma FirstBackupStays(files: Files, all: seq<Job>, jobs: seq<Job>, writable: string -> bool)
    requires Sound(all) && Apart(all) && (forall j :: j in jobs ==> j in all) && jobs != []
    requires Backed(files, jobs, writable).ok
    requires var next := files[Dest(jobs[0].path, jobs[0].stamp) := files[jobs[0].path]];
             && HasBackups(Backed(files, jobs, writable).files, next, jobs[1..])
             && SameExcept(Backed(files, jobs, writable).files, next, jobs[1..])
    ensures var dest, m := Dest(jobs[0].path, jobs[0].stamp), Backed(files, jobs, writable).files;
            dest in m && m[dest] == files[jobs[0].path]
  {
    var j, rest := jobs[0], jobs[1..];
    var dest := Dest(j.path, j.stamp);
    assert j in jobs;
    if Written(rest, dest) {
      var k :| k in rest && Dest(k.path, k.stamp) == dest;
      assert k in jobs;
      BackupsAreDistinct(j.path, k.path, j.stamp, k.stamp);
    }
  }

  /** A job finds its file when that was there before or is an earlier job's backup. */
  ghost predicate CanBackUp(files: Files, jobs: seq<Job>, i: nat, writable: string -> bool)
    requires i < |jobs|
  {
    && writable(Dest(jobs[i].path, jobs[i].stamp))
    && (jobs[i].path in files || exists j :: 0 <= j < i && Dest(jobs[j].path, jobs[j].stamp) == jobs[i].path)
  }

  lemma CanBackUpLater(files: Files, jobs: seq<Job>, i: nat, writable: string -> bool)
    requires i + 1 < |jobs| && jobs[0].path in files
    ensures var dest := Dest(jobs[0].path, jobs[0].stamp);
            CanBackUp(files, jobs, i + 1, writable) <==> CanBackUp(files[dest := files[jobs[0].path]], jobs[1..], i, writable)
  {
    var rest := jobs[1..];
    if j :| 0 <= j < i + 1 && Dest(jobs[j].path, jobs[j].stamp) == jobs[i + 1].path {
      assert j == 0 || Dest(rest[j - 1].path, rest[j - 1].stamp) == rest[i].path;
    }
    if j :| 0 <= j < i && Dest(rest[j].path, rest[j].stamp) == rest[i].path {
      assert Dest(jobs[j + 1].path, jobs[j + 1].stamp) == jobs[i + 1].path;
    }
  }

  /** A backup reaches its end exactly when every job finds its file and can write its copy. */
  lemma {:induction false} BackupSucceedsExactly(files: Files, jobs: seq<Job>, writable: string -> bool)
    ensures Backed(files, jobs, writable).ok <==> forall i :: 0 <= i < |jobs| ==> CanBackUp(files, jobs, i, writable)
    decreases |jobs|
  {
    if jobs != [] {
      var path, dest := jobs[0].path, Dest(jobs[0].path, jobs[0].stamp);
      assert CanBackUp(files, jobs, 0, writable) <==> path in files && writable(dest);
      if path in files && writable(dest) {
        var next, rest := files[dest := files[path]], jobs[1..];
        BackupSucceedsExactly(next, rest, writable);
        forall i | 0 <= i < |rest|
          ensures CanBackUp(files, jobs, i + 1, writable) <==> CanBackUp(next, rest, i, writable)
        {
          CanBackUpLater(files, jobs, i, writable);
        }
        assert forall i :: 0 < i < |jobs| ==> (CanBackUp(files, jobs, i, writable) <==> CanBackUp(next, rest, i - 1, writable));
      }
    }
  }

  // ------------------------------------------------------------------ update

  /** Between backup and restore only the listed paths change. */
  ghost predicate OnlyPathsChange(a: Files, b: Files, paths: seq<string>) {
    forall name :: (name in a <==> name in b) && (name in a && name !in paths ==> a[name] == b[name])
  }

  /** However far an update gets, it changes nothing but the listed paths. */
  lemma {:induction false} UpdateChangesPaths(files: Files, paths: seq<string>, all: seq<string>, password: string, writable: string -> bool)
    requires forall p :: p in paths ==> p in all
    ensures OnlyPathsChange(files, Updated(files, paths, password, writable).files, all)
  {
    if paths != [] && paths[0] in files && writable(paths[0]) {
      UpdateChangesPaths(files[paths[0] := Rotated(files[paths[0]], password)], paths[1..], all, password, writable);
    }
  }

  predicate Distinct(paths: seq<string>) {
    forall i, j :: 0 <= i < j < |paths| ==> paths[i] != paths[j]
  }

  /** `a` is `b` with exactly these files rotated. */
  ghost predicate RotatedIn(b: Files, a: Files, paths: seq<string>, password: string) {
    && (forall name :: name in a <==> name in b)
    && (forall p :: p in paths ==> p in b && IsRotation(b[p], a[p], password))
    && (forall name :: name in b && name !in paths ==> a[name] == b[name])
  }

  /** Whether an update gets past a path. */
  predicate CanUpdate(files: Files, path: string, writable: string -> bool) {
    path in files && writable(path)
  }

  /** How far an update gets: up to the first path that is missing or cannot be written. */
  ghost predicate GetsTo(files: Files, paths: seq<string>, writable: string -> bool, k: nat) {
    && k <= |paths|
    && (forall i :: 0 <= i < k ==> CanUpdate(files, paths[i], writable))
    && (k < |paths| ==> !CanUpdate(files, paths[k], writable))
  }

  lemma GetsOneFurther(files: Files, next: Files, paths: seq<string>, writable: string -> bool, k: nat)
    requires paths != [] && CanUpdate(files, paths[0], writable)
    requires (forall name :: name in files <==> name in next) && GetsTo(next, paths[1..], writable, k)
    ensures GetsTo(files, paths, writable, k + 1)
  {
    assert forall i :: 0 < i < |paths| ==> paths[i] == paths[1..][i - 1];
  }

  lemma DistinctRest(paths: seq<string>)
    requires Distinct(paths) && paths != []
    ensures Distinct(paths[1..]) && paths[0] !in paths[1..]
  {
  }

  /** What an update that got to `k` has done. */
  ghost predicate UpdatedTo(files: Files, paths: seq<string>, password: string, r: Outcome, k: nat)
    requires k <= |paths|
  {
    (r.ok <==> k == |paths|) && RotatedIn(files, r.files, paths[..k], password)
  }

  lemma TakeNext(paths: seq<string>, k: nat)
    requires paths != [] && k < |paths|
    ensures paths[..k + 1] == [paths[0]] + paths[1..][..k]
    ensures forall p :: p in paths[1..][..k] ==> p in paths[1..]
  {
  }

  /** An update of distinct paths rotates every file up to the first that is missing or cannot
      be written, which makes it fail, and leaves all others alone. */
  lemma {:induction false} UpdateRotatesExactly(files: Files, paths: seq<string>, password: string, writable: string -> bool)
    returns (k: nat)
    requires Distinct(paths)
    ensures GetsTo(files, paths, writable, k)
    ensures UpdatedTo(files, paths, password, Updated(files, paths, password, writable), k)
    decreases |paths|
  {
    if paths == [] || !CanUpdate(files, paths[0], writable) {
      k := 0;
    } else {
      var next := files[paths[0] := Rotated(files[paths[0]], password)];
      DistinctRest(paths);
      k := UpdateRotatesExactly(next, paths[1..], password, writable);
      RotatedIs(files[paths[0]], password);
      GetsOneFurther(files, next, paths, writable, k);
      TakeNext(paths, k);
      FirstRotated(files, next, Updated(next, paths[1..], password, writable).files, paths[0], paths[1..][..k], password);
      k := k + 1;
    }
  }

  lemma FirstRotated(files: Files, next: Files, m: Files, path: string, rest: seq<string>, password: string)
    requires path in files && path !in rest && path in next && next == files[path := next[path]]
    requires IsRotation(files[path], next[path], password)
    requires RotatedIn(next, m, rest, password)
    ensures RotatedIn(files, m, [path] + rest, password)
  {
    forall p | p in [path] + rest ensures p in files && IsRotation(files[p], m[p], password) {
      if p != path {
        assert p in rest;
      }
    }
  }

  // ----------------------------------------------------------------- restore

  /** A name leads back to a path exactly when it has the marker: to what stands before the
      last one. */
  lemma OriginalExactly(bak: string)
    ensures var b := TrimSpace(bak);
            match Original(bak)
            case None => !Contains(b, MARK)
            case Some(path) => path + MARK <= b && forall i :: i > |path| ==> !OccursAt(b, MARK, i)
  {
    var b := TrimSpace(bak);
    var idx := LastIndex(b, MARK);
    if idx == -1 {
      assert !OccursAt(b, MARK, Index(b, MARK));
    } else {
      assert b[..idx] + MARK == b[..idx + |MARK|];
    }
  }

  /** A name can be restored when it leads back to a writable path and its file was there
      before or is an earlier path. */
  ghost predicate CanRestore(files: Files, baks: seq<string>, i: nat, writable: string -> bool)
    requires i < |baks|
  {
    && Original(baks[i]).Some? && writable(Original(baks[i]).value)
    && (TrimSpace(baks[i]) in files || exists j :: 0 <= j < i && Original(baks[j]) == Some(TrimSpace(baks[i])))
  }

  lemma CanRestoreLater(files: Files, next: Files, baks: seq<string>, i: nat, writable: string -> bool)
    requires i + 1 < |baks| && Original(baks[0]).Some?
    requires forall name :: name in next <==> name in files || name == Original(baks[0]).value
    ensures CanRestore(files, baks, i + 1, writable) <==> CanRestore(next, baks[1..], i, writable)
  {
    var rest := baks[1..];
    if j :| 0 <= j < i + 1 && Original(baks[j]) == Some(TrimSpace(baks[i + 1])) {
      assert j == 0 || Original(rest[j - 1]) == Some(TrimSpace(rest[i]));
    }
    if j :| 0 <= j < i && Original(rest[j]) == Some(TrimSpace(rest[i])) {
      assert Original(baks[j + 1]) == Some(TrimSpace(baks[i + 1]));
    }
  }

  /** A restore reaches its end exactly when every name can be restored. */
  lemma {:induction false} RestoreSucceedsExactly(files: Files, baks: seq<string>, writable: string -> bool)
    ensures Restored(files, baks, writable).ok <==> forall i :: 0 <= i < |baks| ==> CanRestore(files, baks, i, writable)
    decreases |baks|
  {
    if baks != [] {
      var b, original := TrimSpace(baks[0]), Original(baks[0]);
      assert CanRestore(files, baks, 0, writable) <==> original.Some? && b in files && writable(original.value);
      if original.Some? && b in files && writable(original.value) {
        var next, rest := files[original.value := files[b]], baks[1..];
        RestoreSucceedsExactly(next, rest, writable);
        forall i | 0 <= i < |rest|
          ensures CanRestore(files, baks, i + 1, writable) <==> CanRestore(next, rest, i, writable)
        {
          CanRestoreLater(files, next, baks, i, writable);
        }
        assert forall i :: 0 < i < |baks| ==> (CanRestore(files, baks, i, writable) <==> CanRestore(next, rest, i - 1, writable));
      }
    }
  }

  function Paths(jobs: seq<Job>): (r: seq<string>)
    ensures |r| == |jobs| && forall i :: 0 <= i < |jobs| ==> r[i] == jobs[i].path
  {
    if jobs == [] then [] else [jobs[0].path] + Paths(jobs[1..])
  }

  lemma PathsAre(jobs: seq<Job>, name: string)
    ensures name in Paths(jobs) <==> exists j :: j in jobs && j.path == name
  {
    if name in Paths(jobs) {
      var i :| 0 <= i < |jobs| && Paths(jobs)[i] == name;
      assert jobs[i] in jobs;
    }
    if j :| j in jobs && j.path == name {
      var i :| 0 <= i < |jobs| && jobs[i] == j;
      assert Paths(jobs)[i] == name;
    }
  }

  ghost predicate PathsLike(files: Files, before: Files, jobs: seq<Job>) {
    forall j :: j in jobs ==> j.path in files && j.path in before && files[j.path] == before[j.path]
  }

  /** Restoring from the backups puts every listed path back and touches nothing else. */
  lemma {:induction false} RestoreUndoes(files: Files, before: Files, all: seq<Job>, jobs: seq<Job>, writable: string -> bool)
    requires Sound(all) && Apart(all) && (forall j :: j in jobs ==> j in all)
    requires HasBackups(files, before, all) && (forall j :: j in jobs ==> writable(j.path))
    ensures Restored(files, Dests(jobs), writable).ok
    ensures PathsLike(Restored(files, Dests(jobs), writable).files, before, jobs)
    ensures forall name :: (forall j :: j in jobs ==> j.path != name) ==>
              var m := Restored(files, Dests(jobs), writable).files;
              (name in m <==> name in files) && (name in m ==> m[name] == files[name])
    decreases |jobs|
  {
    if jobs != [] {
      var j, rest := jobs[0], jobs[1..];
      var dest := Dest(j.path, j.stamp);
      assert j in jobs && Dests(jobs)[0] == dest && Dests(jobs)[1..] == Dests(rest);
      OriginalOfDest(j.path, j.stamp);
      var next := files[j.path := files[dest]];
      assert HasBackups(next, before, all);
      RestoreUndoes(next, before, all, rest, writable);
      assert forall k :: k in jobs <==> k == j || k in rest;
    }
  }

  /** The whole rotation.  Once the files are backed up, an update that goes wrong anywhere
      is undone by a restore from the joined names: every path has its old contents back and
      every other file is as it was, but for the backups.  An empty list cannot be restored:
      its joined name is one empty name. */
  lemma RestoreUndoesUpdate(before: Files, jobs: seq<Job>, updated: Files, writable: string -> bool)
    requires Sound(jobs) && Apart(jobs) && Backed(before, jobs, writable).ok
    requires forall j :: j in jobs ==> writable(j.path)
    requires OnlyPathsChange(Backed(before, jobs, writable).files, updated, Paths(jobs))
    ensures var r := Restored(updated, Split(Join(Dests(jobs), ','), ','), writable);
            && (r.ok <==> jobs != [])
            && (r.ok ==> SameExcept(r.files, before, jobs) && HasBackups(r.files, before, jobs))
  {
    NamesReadBack(jobs);
    if jobs == [] {
      assert Split("", ',') == [""];
      NotEmptyName();
    } else {
      var backed := Backed(before, jobs, writable).files;
      BackupHolds(before, jobs, jobs, writable);
      BackupsSurvive(backed, updated, before, jobs);
      RestoreUndoes(updated, before, jobs, jobs, writable);
      var m := Restored(updated, Dests(jobs), writable).files;
      forall name | !Written(jobs, name)
        ensures (name in m <==> name in before) && (name in m ==> m[name] == before[name])
      {
        PathsAre(jobs, name);
      }
      assert HasBackups(m, before, jobs);
    }
  }

  lemma NotEmptyName()
    ensures Original("") == None
  {
    assert TrimSpace("") == "";
    assert forall i :: !OccursAt("", MARK, i);
  }

  lemma BackupsSurvive(backed: Files, updated: Files, before: Files, jobs: seq<Job>)
    requires Apart(jobs) && HasBackups(backed, before, jobs) && OnlyPathsChange(backed, updated, Paths(jobs))
    ensures HasBackups(updated, before, jobs)
  {
    forall j | j in jobs
      ensures Dest(j.path, j.stamp) in updated && updated[Dest(j.path, j.stamp)] == before[j.path]
    {
      PathsAre(jobs, Dest(j.path, j.stamp));
    }
  }

  /** The update of the rotation itself, stopped wherever a read or a write fails. */
  lemma RestoreUndoesRotation(before: Files, jobs: seq<Job>, password: string, canUpdate: string -> bool, writable: string -> bool)
    requires Sound(jobs) && Apart(jobs) && Backed(before, jobs, writable).ok && jobs != []
    requires forall j :: j in jobs ==> writable(j.path)
    ensures var updated := Updated(Backed(before, jobs, writable).files, Paths(jobs), password, canUpdate).files;
            var r := Restored(updated, Split(Join(Dests(jobs), ','), ','), writable);
            r.ok && SameExcept(r.files, before, jobs) && PathsLike(r.files, before, jobs)
  {
    var backed := Backed(before, jobs, writable).files;
    UpdateChangesPaths(backed, Paths(jobs), Paths(jobs), password, canUpdate);
    var updated := Updated(backed, Paths(jobs), password, canUpdate).files;
    RestoreUndoesUpdate(before, jobs, updated, writable);
    var r := Restored(updated, Split(Join(Dests(jobs), ','), ','), writable).files;
    forall j | j in jobs ensures j.path in r && j.path in before && r[j.path] == before[j.path] {
      assert !Written(jobs, j.path);
    }
  }
}
