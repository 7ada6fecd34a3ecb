/**
 The upgrade watchdog: cutover and rollback driven by a sentinel file that survives the
 watchdog itself.  The watchdog may die between any two effects, and in the middle of
 rewriting the env file, and then starts over.  The backend may replace the sentinel at
 any time, also while the watchdog works on a copy of it.
 */
module Watchdog {
  import opened Text
  import opened EnvFile

  /** The sentinel's JSON object, with the values the watchdog uses as strings. */
  type Fields = map<string, string>

  datatype SentinelFile = Missing | Malformed | Data(fields: Fields)

  /** Raw text of the env file. */
  datatype EnvState = NoEnv | Env(raw: string)

  /** What the watchdog does next; `m` is its copy of the sentinel. */
  datatype Phase =
    | Down
    | Sleeping
    | CutoverRead(m: Fields)
    | CutoverWrite(m: Fields, text: string)
    | CutoverUp(m: Fields)
    | AwaitHealth(m: Fields)
    | MarkComplete(m: Fields)
    | RollbackStop(m: Fields)
    | RollbackRead(m: Fields)
    | RollbackWrite(m: Fields, text: string)
    | RestoreDb(m: Fields)
    | RollbackUp(m: Fields)
    | MarkRolledBack(m: Fields)

  /** What the watchdog last wrote into the sentinel, until someone else writes it. */
  datatype Verdict = Unmarked | Complete | RolledBack

  /** A replacement of the sentinel by the watchdog: the file replaced, the copy polled, what
      others wrote between poll and replacement, and the new contents. */
  datatype Rewrite = Rewrite(before: SentinelFile, polled: Fields, others: seq<SentinelFile>, after: Fields)

  datatype State = State(
    sentinel: SentinelFile,
    env: EnvState,
    phase: Phase,
    // history
    verdict: Verdict,
    others: seq<SentinelFile>,
    read: EnvState,
    healthy: bool,
    torn: bool,
    rewrites: seq<Rewrite>
  )

  function Start(sentinel: SentinelFile, env: EnvState): State {
    State(sentinel, env, Down, Unmarked, [], NoEnv, false, false, [])
  }

  datatype Action =
    | Die(flushed: nat)
    | Restart
    | OthersWrite(file: SentinelFile)
    | Poll
    | OpenEnv
    | FlushEnv
    | ComposeReturns(ok: bool)
    | HealthCheck(ok: bool)
    | HealthTimeout
    | StopReturns
    | DbRestored
    | WriteSentinel(timestamp: string)

  const TARGET := "target_version"
  const PREVIOUS := "previous_image_tag"
  const STATE := "state"

  function Field(m: Fields, key: string): string {
    if key in m then m[key] else ""
  }

  predicate IsPending(f: SentinelFile) {
    f.Data? && STATE in f.fields && f.fields[STATE] == "cutover_pending"
  }

  /** The part of an image reference after its last colon. */
  function TagOnly(image: string): string {
    Last(Split(image, ':'))
  }

  predicate Working(p: Phase) {
    !p.Down? && !p.Sleeping?
  }

  predicate Enabled(s: State, a: Action) {
    match a
    case Die(_) => !s.phase.Down?
    case Restart => s.phase.Down?
    case OthersWrite(_) => true
    case Poll => s.phase.Sleeping?
    case OpenEnv => s.phase.CutoverRead? || s.phase.RollbackRead?
    case FlushEnv => s.phase.CutoverWrite? || s.phase.RollbackWrite?
    case ComposeReturns(_) => s.phase.CutoverUp? || s.phase.RollbackUp?
    case HealthCheck(_) => s.phase.AwaitHealth?
    case HealthTimeout => s.phase.AwaitHealth?
    case StopReturns => s.phase.RollbackStop?
    case DbRestored => s.phase.RestoreDb?
    case WriteSentinel(_) => s.phase.MarkComplete? || s.phase.MarkRolledBack?
  }

  /** Reading the env file and opening it for writing, which empties it. */
  function OpenedForCutover(s: State, m: Fields): State {
    match s.env
    case NoEnv => s.(phase := CutoverUp(m), read := NoEnv)
    case Env(raw) => s.(phase := CutoverWrite(m, Updated(ReadText(raw), Field(m, TARGET))), read := s.env, env := Env(""))
  }

  function OpenedForRollback(s: State, m: Fields): State {
    if Field(m, PREVIOUS) == "" then s.(phase := RestoreDb(m))
    else
      match s.env
      case NoEnv => s.(phase := RestoreDb(m), read := NoEnv)
      case Env(raw) =>
        s.(phase := RollbackWrite(m, Updated(ReadText(raw), TagOnly(Field(m, PREVIOUS)))), read := s.env, env := Env(""))
  }

  function Marked(s: State, m: Fields, verdict: Verdict): State
    requires Working(s.phase)
  {
    s.(sentinel := Data(m), verdict := verdict, phase := Sleeping,
       rewrites := s.rewrites + [Rewrite(s.sentinel, s.phase.m, s.others, m)])
  }

  function Next(s: State, a: Action): State
    requires Enabled(s, a)
  {
    match a
    case Die(flushed) =>
      if s.phase.CutoverWrite? || s.phase.RollbackWrite? then
        s.(phase := Down, torn := true, env := Env(if flushed <= |s.phase.text| then s.phase.text[..flushed] else s.phase.text))
      else s.(phase := Down)
    case Restart => s.(phase := Sleeping)
    case OthersWrite(file) => s.(sentinel := file, verdict := Unmarked, others := s.others + [file])
    case Poll =>
      if !IsPending(s.sentinel) then s
      else if TARGET !in s.sentinel.fields then s.(phase := Down)
      else s.(phase := CutoverRead(s.sentinel.fields), verdict := Unmarked, others := [])
    case OpenEnv =>
      if s.phase.CutoverRead? then OpenedForCutover(s, s.phase.m) else OpenedForRollback(s, s.phase.m)
    case FlushEnv =>
      var m, text := s.phase.m, s.phase.text;
      s.(env := Env(text), phase := if s.phase.CutoverWrite? then CutoverUp(m) else RestoreDb(m))
    case ComposeReturns(ok) =>
      if s.phase.RollbackUp? then s.(phase := MarkRolledBack(s.phase.m))
      else if ok then s.(phase := AwaitHealth(s.phase.m), healthy := false)
      else s.(phase := Down)
    case HealthCheck(ok) => if ok then s.(phase := MarkComplete(s.phase.m), healthy := true) else s
    case HealthTimeout => s.(phase := RollbackStop(s.phase.m))
    case StopReturns => s.(phase := RollbackRead(s.phase.m))
    case DbRestored => s.(phase := RollbackUp(s.phase.m))
    case WriteSentinel(timestamp) =>
      var m := s.phase.m;
      if s.phase.MarkComplete? then
        Marked(s, m[STATE := "cutover_complete"]["cutover_completed_at" := timestamp], Complete)
      else
        Marked(s, m[STATE := "rollback_complete"]["rollback_reason" := "watchdog_rollback"], RolledBack)
  }

  ghost predicate Run(s: State, acts: seq<Action>, s': State)
    decreases |acts|
  {
    if acts == [] then s == s'
    else Enabled(s, acts[0]) && Run(Next(s, acts[0]), acts[1..], s')
  }

  // -------------------------------------------------------------- the invariant

  /** The env file is what the last update made of what it read. */
  predicate EnvUpdated(s: State, tag: string) {
    match s.read
    case NoEnv => s.env == NoEnv
    case Env(raw) => s.env == Env(Updated(ReadText(raw), tag))
  }

  predicate RolledBackTag(s: State, m: Fields) {
    Field(m, PREVIOUS) != "" ==> EnvUpdated(s, TagOnly(Field(m, PREVIOUS)))
  }

  /** The file an update is about to leave, while it is being written. */
  predicate WriteUnderWay(s: State) {
    (s.phase.CutoverWrite? ==>
       s.read.Env? && s.phase.text == Updated(ReadText(s.read.raw), Field(s.phase.m, TARGET)))
    && (s.phase.RollbackWrite? ==>
          s.read.Env? && s.phase.text == Updated(ReadText(s.read.raw), TagOnly(Field(s.phase.m, PREVIOUS))))
  }

  /** The sentinel since a poll: the polled copy until others write. */
  function Latest(polled: Fields, others: seq<SentinelFile>): SentinelFile {
    if others == [] then Data(polled) else Last(others)
  }

  predicate AtWork(s: State) {
    Working(s.phase) ==>
      && IsPending(Data(s.phase.m)) && s.verdict == Unmarked
      && s.sentinel == Latest(s.phase.m, s.others)
      && (s.phase.CutoverUp? || s.phase.AwaitHealth? || s.phase.MarkComplete? ==> EnvUpdated(s, Field(s.phase.m, TARGET)))
      && (s.phase.MarkComplete? ==> s.healthy)
      && (s.phase.RestoreDb? || s.phase.RollbackUp? || s.phase.MarkRolledBack? ==> RolledBackTag(s, s.phase.m))
  }

  predicate VerdictHolds(s: State) {
    && (s.verdict == Complete ==> s.sentinel.Data? && Field(s.sentinel.fields, STATE) == "cutover_complete"
                                  && s.healthy && EnvUpdated(s, Field(s.sentinel.fields, TARGET)))
    && (s.verdict == RolledBack ==> s.sentinel.Data? && Field(s.sentinel.fields, STATE) == "rollback_complete"
                                    && RolledBackTag(s, s.sentinel.fields))
  }

  /** The field a rewrite adds beside the state. */
  function OwnField(after: Fields): string {
    if Field(after, STATE) == "cutover_complete" then "cutover_completed_at" else "rollback_reason"
  }

  /** The two agree but for the state and one more field. */
  predicate SameButOwn(a: Fields, b: Fields, own: string) {
    && a.Keys + {STATE, own} == b.Keys + {STATE, own}
    && forall k :: k in a && k != STATE && k != own ==> a[k] == b[k]
  }

  /** A rewrite marks its polled copy, which was pending, and changes no other field of it. */
  predicate MarksItsCopy(w: Rewrite) {
    && IsPending(Data(w.polled))
    && (Field(w.after, STATE) == "cutover_complete" || Field(w.after, STATE) == "rollback_complete")
    && STATE in w.after && OwnField(w.after) in w.after
    && SameButOwn(w.polled, w.after, OwnField(w.after))
    && w.before == Latest(w.polled, w.others)
  }

  /** A rewrite is faithful to the file it replaces: that was pending and keeps its fields. */
  predicate FaithfulRewrite(w: Rewrite) {
    && IsPending(w.before)
    && STATE in w.after && OwnField(w.after) in w.after
    && SameButOwn(w.before.fields, w.after, OwnField(w.after))
  }

  predicate Invariant(s: State) {
    WriteUnderWay(s) && AtWork(s) && VerdictHolds(s) && forall w :: w in s.rewrites ==> MarksItsCopy(w)
  }

  lemma OpenStep(s: State)
    requires Enabled(s, OpenEnv) && Invariant(s)
    ensures WriteUnderWay(Next(s, OpenEnv)) && AtWork(Next(s, OpenEnv))
  {
    if s.phase.CutoverRead? {
      assert Next(s, OpenEnv) == OpenedForCutover(s, s.phase.m);
    } else {
      assert Next(s, OpenEnv) == OpenedForRollback(s, s.phase.m);
    }
  }

  lemma FlushStep(s: State)
    requires Enabled(s, FlushEnv) && Invariant(s)
    ensures WriteUnderWay(Next(s, FlushEnv)) && AtWork(Next(s, FlushEnv))
  {
  }

  lemma AtWorkStep(s: State, a: Action)
    requires Enabled(s, a) && Invariant(s)
    ensures WriteUnderWay(Next(s, a)) && AtWork(Next(s, a))
  {
    if a.OpenEnv? {
      OpenStep(s);
    } else if a.FlushEnv? {
      FlushStep(s);
    } else if !a.Die? {
      assert Next(s, a).env == s.env && Next(s, a).read == s.read;
    }
  }

  lemma VerdictStep(s: State, a: Action)
    requires Enabled(s, a) && Invariant(s)
    ensures VerdictHolds(Next(s, a))
  {
    if a.WriteSentinel? {
      MarkHolds(s, a);
    } else if s.verdict != Unmarked {
      assert !Working(s.phase);
    }
  }

  lemma MarkHolds(s: State, a: Action)
    requires Enabled(s, a) && a.WriteSentinel? && AtWork(s)
    ensures VerdictHolds(Next(s, a))
  {
    var m, m' := s.phase.m, Next(s, a).sentinel.fields;
    assert Field(m', TARGET) == Field(m, TARGET) && Field(m', PREVIOUS) == Field(m, PREVIOUS);
  }

  lemma MarkShape(s: State, timestamp: string) returns (state: string, key: string, value: string)
    requires Enabled(s, WriteSentinel(timestamp))
    ensures var s' := Next(s, WriteSentinel(timestamp));
            var m := s.phase.m[STATE := state][key := value];
            && s'.sentinel == Data(m) && key != TARGET && key != PREVIOUS && key != STATE
            && s'.env == s.env && s'.read == s.read && s'.torn == s.torn && s'.phase.Sleeping?
            && s'.rewrites == s.rewrites + [Rewrite(s.sentinel, s.phase.m, s.others, m)]
    ensures (state == "cutover_complete" && key == "cutover_completed_at")
            || (state == "rollback_complete" && key == "rollback_reason")
  {
    if s.phase.MarkComplete? {
      state, key, value := "cutover_complete", "cutover_completed_at", timestamp;
    } else {
      state, key, value := "rollback_complete", "rollback_reason", "watchdog_rollback";
    }
  }

  lemma MarkChangesOwn(m: Fields, state: string, own: string, value: string)
    requires own != STATE
    ensures SameButOwn(m, m[STATE := state][own := value], own)
  {
  }

  lemma RewriteStep(s: State, a: Action)
    requires Enabled(s, a) && Invariant(s)
    ensures forall w :: w in Next(s, a).rewrites ==> MarksItsCopy(w)
  {
    if a.WriteSentinel? {
      var state, key, value := MarkShape(s, a.timestamp);
      MarkChangesOwn(s.phase.m, state, key, value);
      var w := Rewrite(s.sentinel, s.phase.m, s.others, s.phase.m[STATE := state][key := value]);
      assert Next(s, a).rewrites == s.rewrites + [w];
      assert MarksItsCopy(w);
    } else {
      assert Next(s, a).rewrites == s.rewrites;
    }
  }

  lemma InvariantStep(s: State, a: Action)
    requires Enabled(s, a) && Invariant(s)
    ensures Invariant(Next(s, a))
  {
    AtWorkStep(s, a);
    VerdictStep(s, a);
    RewriteStep(s, a);
  }

  lemma {:induction false} InvariantOverRun(s: State, acts: seq<Action>, s': State)
    requires Invariant(s) && Run(s, acts, s')
    ensures Invariant(s')
    decreases |acts|
  {
    if acts != [] {
      InvariantStep(s, acts[0]);
      InvariantOverRun(Next(s, acts[0]), acts[1..], s');
    }
  }

  // ------------------------------------------------- what the sentinel is worth

  /** The text a reader of the env file sees. */
  predicate EnvTagIs(env: EnvState, tag: string) {
    env.Env? && TagIs(SplitLines(ReadText(env.raw)), tag)
  }

  /** An env file on which an update takes effect. */
  predicate Ready(env: EnvState) {
    env.Env? && Appendable(ReadText(env.raw))
  }

  lemma EnvTagExactly(s: State, tag: string)
    requires EnvUpdated(s, tag) && NoBreak(tag)
    ensures EnvTagIs(s.env, tag) <==> Ready(s.read)
  {
    if s.read.Env? {
      var text := ReadText(s.read.raw);
      UpdatedReadsBack(text, tag);
      UpdateTakesEffectExactly(text, tag);
    }
  }

  /** However often the watchdog died: when it has marked a cutover complete, a health
      check succeeded after the restart, and the env file names the target version exactly
      if the file that the cutover read existed and could take another line. */
  lemma CompleteMeans(sentinel: SentinelFile, env: EnvState, acts: seq<Action>, s: State)
    requires Run(Start(sentinel, env), acts, s) && s.verdict == Complete
    ensures s.sentinel.Data? && Field(s.sentinel.fields, STATE) == "cutover_complete" && s.healthy
    ensures var target := Field(s.sentinel.fields, TARGET);
            NoBreak(target) ==> (EnvTagIs(s.env, target) <==> Ready(s.read))
  {
    InvariantOverRun(Start(sentinel, env), acts, s);
    var target := Field(s.sentinel.fields, TARGET);
    if NoBreak(target) {
      EnvTagExactly(s, target);
    }
  }

  /** The same for a rollback and the previous tag, if the sentinel has one. */
  lemma RolledBackMeans(sentinel: SentinelFile, env: EnvState, acts: seq<Action>, s: State)
    requires Run(Start(sentinel, env), acts, s) && s.verdict == RolledBack
    ensures s.sentinel.Data? && Field(s.sentinel.fields, STATE) == "rollback_complete"
    ensures var previous := Field(s.sentinel.fields, PREVIOUS);
            previous != "" && NoBreak(TagOnly(previous)) ==> (EnvTagIs(s.env, TagOnly(previous)) <==> Ready(s.read))
  {
    InvariantOverRun(Start(sentinel, env), acts, s);
    var previous := Field(s.sentinel.fields, PREVIOUS);
    if previous != "" && NoBreak(TagOnly(previous)) {
      EnvTagExactly(s, TagOnly(previous));
    }
  }

  /** In every run, whatever others write and when: each rewrite is the copy polled, which
      was pending, with its two own fields changed; the file it replaces is that copy, or
      the last one others wrote since the poll. */
  lemma RewritesArePolledCopies(sentinel: SentinelFile, env: EnvState, acts: seq<Action>, s: State)
    requires Run(Start(sentinel, env), acts, s)
    ensures forall w :: w in s.rewrites ==> MarksItsCopy(w)
  {
    InvariantOverRun(Start(sentinel, env), acts, s);
  }

  lemma SameTwice(a: Fields, b: Fields, c: Fields, own: string)
    requires SameButOwn(b, c, own)
    ensures SameButOwn(a, c, own) <==> SameButOwn(a, b, own)
  {
  }

  /** A rewrite is faithful to the file it replaces exactly when nobody wrote that file since
      the poll, or the last to do so left it pending with the polled fields, but for the
      watchdog's own. */
  lemma RewriteIsFaithfulExactly(sentinel: SentinelFile, env: EnvState, acts: seq<Action>, s: State, w: Rewrite)
    requires Run(Start(sentinel, env), acts, s) && w in s.rewrites
    ensures FaithfulRewrite(w)
            <==> w.others == []
                 || (IsPending(Last(w.others)) && SameButOwn(Last(w.others).fields, w.polled, OwnField(w.after)))
  {
    RewritesArePolledCopies(sentinel, env, acts, s);
    if w.before.Data? {
      SameTwice(w.before.fields, w.polled, w.after, OwnField(w.after));
    }
  }

  lemma TagOnlyIsAfterLastColon(image: string) returns (name: string)
    ensures ':' !in TagOnly(image)
    ensures if ':' in image then image == name + ":" + TagOnly(image) else image == TagOnly(image)
  {
    name := LastOfSplit(image, ':');
  }

  // ------------------------------------------- runs without an interrupted write

  predicate Clean(f: SentinelFile) {
    f.Data? ==> NoBreak(Field(f.fields, TARGET)) && NoBreak(TagOnly(Field(f.fields, PREVIOUS)))
  }

  predicate CleanActs(acts: seq<Action>) {
    forall a :: a in acts && a.OthersWrite? ==> Clean(a.file)
  }

  /** As long as no write was interrupted, every env file read takes its update. */
  predicate StaysReady(s: State) {
    && Clean(s.sentinel) && (Working(s.phase) ==> Clean(Data(s.phase.m)))
    && (!s.torn ==> Ready(s.env) && (s.read.Env? ==> Ready(s.read))
                    && (s.phase.CutoverWrite? || s.phase.RollbackWrite? ==> Ready(Env(s.phase.text))))
  }

  lemma ReadyAfterUpdate(raw: string, tag: string)
    requires NoBreak(tag) && Ready(Env(raw))
    ensures Ready(Env(Updated(ReadText(raw), tag)))
  {
    UpdatedReadsBack(ReadText(raw), tag);
    UpdateKeepsOtherLines(ReadText(raw), tag);
  }

  lemma OpenStaysReady(s: State)
    requires Enabled(s, OpenEnv) && Invariant(s) && StaysReady(s)
    ensures StaysReady(Next(s, OpenEnv))
  {
    if s.env.Env? && !s.torn {
      var tag := if s.phase.CutoverRead? then Field(s.phase.m, TARGET) else TagOnly(Field(s.phase.m, PREVIOUS));
      ReadyAfterUpdate(s.env.raw, tag);
    }
  }

  lemma MarkedIsClean(m: Fields, state: string, key: string, value: string)
    requires Clean(Data(m)) && key != TARGET && key != PREVIOUS
    ensures Clean(Data(m[STATE := state][key := value]))
  {
    var m' := m[STATE := state][key := value];
    assert |STATE| != |TARGET| && |STATE| != |PREVIOUS|;
    assert Field(m', TARGET) == Field(m, TARGET) && Field(m', PREVIOUS) == Field(m, PREVIOUS);
  }

  lemma CarriesOver(s: State, s': State)
    requires StaysReady(s) && Clean(s'.sentinel)
    requires s'.env == s.env && s'.read == s.read && s'.torn == s.torn && s'.phase.Sleeping?
    ensures StaysReady(s')
  {
  }

  lemma MarkStaysReady(s: State, timestamp: string)
    requires Enabled(s, WriteSentinel(timestamp)) && StaysReady(s)
    ensures StaysReady(Next(s, WriteSentinel(timestamp)))
  {
    var state, key, value := MarkShape(s, timestamp);
    MarkedIsClean(s.phase.m, state, key, value);
    CarriesOver(s, Next(s, WriteSentinel(timestamp)));
  }

  lemma StaysReadyStep(s: State, a: Action)
    requires Enabled(s, a) && Invariant(s) && StaysReady(s)
    requires a.OthersWrite? ==> Clean(a.file)
    ensures StaysReady(Next(s, a))
  {
    if a.OpenEnv? {
      OpenStaysReady(s);
    } else if a.WriteSentinel? {
      MarkStaysReady(s, a.timestamp);
    } else {
      OtherStaysReady(s, a);
    }
  }

  lemma OtherStaysReady(s: State, a: Action)
    requires Enabled(s, a) && !a.OpenEnv? && !a.WriteSentinel? && StaysReady(s)
    requires a.OthersWrite? ==> Clean(a.file)
    ensures StaysReady(Next(s, a))
  {
    var s' := Next(s, a);
    assert s'.sentinel == if a.OthersWrite? then a.file else s.sentinel;
  }

  lemma {:induction false} StaysReadyOverRun(s: State, acts: seq<Action>, s': State)
    requires Invariant(s) && StaysReady(s) && CleanActs(acts) && Run(s, acts, s')
    ensures StaysReady(s')
    decreases |acts|
  {
    if acts != [] {
      InvariantStep(s, acts[0]);
      StaysReadyStep(s, acts[0]);
      assert forall a :: a in acts[1..] ==> a in acts;
      StaysReadyOverRun(Next(s, acts[0]), acts[1..], s');
    }
  }

  /** Starting from an env file that can take a line, and as long as no write of it was
      interrupted, both final states tell the truth about the env file. */
  lemma SentinelTellsTheTruth(sentinel: SentinelFile, env: EnvState, acts: seq<Action>, s: State)
    requires Run(Start(sentinel, env), acts, s) && Clean(sentinel) && CleanActs(acts) && Ready(env)
    requires !s.torn
    ensures s.verdict != Unmarked ==> s.sentinel.Data?
    ensures s.verdict == Complete ==> EnvTagIs(s.env, Field(s.sentinel.fields, TARGET))
    ensures s.verdict == RolledBack && Field(s.sentinel.fields, PREVIOUS) != "" ==>
              EnvTagIs(s.env, TagOnly(Field(s.sentinel.fields, PREVIOUS)))
  {
    InvariantOverRun(Start(sentinel, env), acts, s);
    StaysReadyOverRun(Start(sentinel, env), acts, s);
    if s.verdict == Complete {
      CompleteMeans(sentinel, env, acts, s);
    } else if s.verdict == RolledBack {
      RolledBackMeans(sentinel, env, acts, s);
    }
  }

  // ----------------------------------------------------------- runs that go wrong

  ghost predicate Reachable(from: State, s: State) {
    exists acts :: Run(from, acts, s)
  }

  lemma {:induction false} RunAppend(from: State, acts: seq<Action>, s: State, a: Action)
    requires Run(from, acts, s) && Enabled(s, a)
    ensures Run(from, acts + [a], Next(s, a))
    decreases |acts|
  {
    if acts == [] {
      assert (acts + [a])[1..] == [];
    } else {
      RunAppend(Next(from, acts[0]), acts[1..], s, a);
      assert (acts + [a])[1..] == acts[1..] + [a];
    }
  }

  lemma Extend(from: State, s: State, a: Action) returns (s': State)
    requires Reachable(from, s) && Enabled(s, a)
    ensures s' == Next(s, a) && Reachable(from, s')
  {
    var acts :| Run(from, acts, s);
    RunAppend(from, acts, s, a);
    s' := Next(s, a);
  }

  lemma UpdateOfOneLine(tag: string)
    ensures Ready(Env("A\n")) && Updated(ReadText("A\n"), tag)[..1] == "A" && !Ready(Env("A"))
  {
    var line := "A\n";
    LineSplitFirst(line, "");
    assert line + "" == line && SplitLines(line) == [line];
    NothingToRewrite([line], tag);
    assert UpdatedList([line], tag) == [line, TagLine(tag)];
    assert Updated(line, tag) == line + Concat([TagLine(tag)]);
    assert SplitLines("A") == ["A"];
  }

  lemma DiesInRewrite(m: Fields, raw: string, k: nat) returns (s: State)
    requires IsPending(Data(m)) && TARGET in m && k <= |Updated(ReadText(raw), m[TARGET])|
    ensures Reachable(Start(Data(m), Env(raw)), s)
    ensures s.phase.Down? && s.sentinel == Data(m) && s.env == Env(Updated(ReadText(raw), m[TARGET])[..k])
  {
    var from := Start(Data(m), Env(raw));
    s := from;
    assert Run(from, [], s);
    s := Extend(from, s, Restart);
    s := Extend(from, s, Poll);
    s := Extend(from, s, OpenEnv);
    s := Extend(from, s, Die(k));
  }

  /** A cutover from a restart to the health wait, with a readable env file. */
  lemma CutsOver(from: State, s: State, m: Fields) returns (s': State)
    requires Reachable(from, s) && s.phase.Down? && s.sentinel == Data(m) && s.env.Env?
    requires IsPending(Data(m)) && TARGET in m
    ensures Reachable(from, s')
    ensures s' == s.(phase := AwaitHealth(m), verdict := Unmarked, others := [], read := s.env,
                     env := Env(Updated(ReadText(s.env.raw), m[TARGET])), healthy := false)
  {
    s' := Extend(from, s, Restart);
    s' := Extend(from, s', Poll);
    s' := Extend(from, s', OpenEnv);
    s' := Extend(from, s', FlushEnv);
    s' := Extend(from, s', ComposeReturns(true));
  }

  /** The end of a cutover whose backend is healthy. */
  lemma Completes(from: State, s: State) returns (s': State)
    requires Reachable(from, s) && s.phase.AwaitHealth?
    ensures Reachable(from, s') && s'.verdict == Complete && s'.env == s.env && s'.read == s.read
    ensures var m := s.phase.m[STATE := "cutover_complete"]["cutover_completed_at" := "now"];
            && s'.sentinel == Data(m)
            && s'.rewrites == s.rewrites + [Rewrite(s.sentinel, s.phase.m, s.others, m)]
  {
    s' := Extend(from, s, HealthCheck(true));
    s' := Extend(from, s', WriteSentinel("now"));
  }

  /** The watchdog dies after flushing `cut` of a rewrite of `raw`, restarts, and
      completes the cutover from there. */
  lemma CompletedAfterCut(m: Fields, raw: string, k: nat, cut: string) returns (s: State)
    requires IsPending(Data(m)) && TARGET in m && NoBreak(m[TARGET])
    requires k <= |Updated(ReadText(raw), m[TARGET])| && cut == Updated(ReadText(raw), m[TARGET])[..k]
    ensures Reachable(Start(Data(m), Env(raw)), s)
    ensures s.verdict == Complete && s.sentinel.Data? && Field(s.sentinel.fields, TARGET) == m[TARGET]
    ensures EnvTagIs(s.env, m[TARGET]) <==> Ready(Env(cut))
  {
    var from := Start(Data(m), Env(raw));
    s := DiesInRewrite(m, raw, k);
    s := CutsOver(from, s, m);
    s := Completes(from, s);
    EnvTagExactly(s, m[TARGET]);
  }

  /** The backend that the watchdog restarts may finish first: it finds the sentinel pending
      with its own version as the target and marks the upgrade complete.  When the health
      check then succeeds the watchdog writes its older copy over that. */
  lemma UpgradeIsOverwritten(m: Fields, raw: string) returns (s: State, w: Rewrite)
    requires IsPending(Data(m)) && TARGET in m
    ensures Reachable(Start(Data(m), Env(raw)), s) && s.rewrites == [w]
    ensures w.before == Data(m[STATE := "upgrade_complete"]) && Field(w.after, STATE) == "cutover_complete"
    ensures s.sentinel == Data(w.after) && !FaithfulRewrite(w)
  {
    var from := Start(Data(m), Env(raw));
    s := from;
    assert Run(from, [], s);
    s := CutsOver(from, s, m);
    s := Extend(from, s, OthersWrite(Data(m[STATE := "upgrade_complete"])));
    s := Completes(from, s);
    w := s.rewrites[0];
  }

  /** So an interrupted write can make the sentinel lie: from an env file fit for updates
      the cutover is marked complete and no line names the target version. */
  lemma InterruptedWriteLies(m: Fields) returns (s: State)
    requires IsPending(Data(m)) && TARGET in m && NoBreak(m[TARGET])
    ensures Ready(Env("A\n")) && Reachable(Start(Data(m), Env("A\n")), s)
    ensures s.verdict == Complete && s.sentinel.Data? && Field(s.sentinel.fields, TARGET) == m[TARGET]
    ensures !EnvTagIs(s.env, m[TARGET])
  {
    UpdateOfOneLine(m[TARGET]);
    s := CompletedAfterCut(m, "A\n", 1, "A");
  }
}
