/**
 What the upgrade watchdog does from a poll that finds a cutover pending until the sentinel
 is marked or the watchdog dies.  The scripts say it in terms of effects alone; every run of
 the watchdog follows them.
 */
module Episodes {
  import opened Text
  import opened EnvFile
  import opened Watchdog

  /** What the watchdog is seen to do. */
  datatype Effect =
    | Polled(m: Fields)
    | Opened(env: EnvState)
    | Written(env: EnvState)
    | Up(ok: bool)
    | Health(ok: bool)
    | TimedOut
    | Stopped
    | DbBack
    | Wrote(file: SentinelFile)
    | Died

  /** The effects of a step from `s` to `t`. */
  function Effects(s: State, a: Action, t: State): seq<Effect> {
    OwnEffects(s, a, t) + if !s.phase.Down? && t.phase.Down? then [Died] else []
  }

  function OwnEffects(s: State, a: Action, t: State): seq<Effect> {
    match a
    case Poll => if IsPending(s.sentinel) then [Polled(s.sentinel.fields)] else []
    case OpenEnv => if s.phase.RollbackRead? && Field(s.phase.m, PREVIOUS) == "" then [] else [Opened(s.env)]
    case FlushEnv => [Written(t.env)]
    case ComposeReturns(ok) => [Up(ok)]
    case HealthCheck(ok) => [Health(ok)]
    case HealthTimeout => [TimedOut]
    case StopReturns => [Stopped]
    case DbRestored => [DbBack]
    case WriteSentinel(_) => [Wrote(t.sentinel)]
    case _ => []
  }

  /** The finished episodes and the one under way: a mark or a death ends one. */
  datatype History = History(done: seq<seq<Effect>>, now: seq<Effect>)

  function Noted(h: History, x: Effect): History {
    if x.Died? || x.Wrote? then History(h.done + [h.now + [x]], []) else History(h.done, h.now + [x])
  }

  function AllNoted(h: History, xs: seq<Effect>): History
    decreases |xs|
  {
    if xs == [] then h else AllNoted(Noted(h, xs[0]), xs[1..])
  }

  function Observed(s: State, acts: seq<Action>, h: History): History
    decreases |acts|
  {
    if acts == [] || !Enabled(s, acts[0]) then h
    else Observed(Next(s, acts[0]), acts[1..], AllNoted(h, Effects(s, acts[0], Next(s, acts[0]))))
  }

  const Nothing := History([], [])

  // ----------------------------------------------------------------- the scripts

  /** The sentinel and the env file an episode began with, how many health checks failed and
      whether the backend came up again after a rollback. */
  datatype Course = Course(m: Fields, env: EnvState, checks: nat, up: bool)

  /** What setting the tag leaves. */
  function Left(env: EnvState, tag: string): EnvState {
    if env.NoEnv? then NoEnv else Env(Updated(ReadText(env.raw), tag))
  }

  function Tagging(env: EnvState, tag: string): seq<Effect> {
    if env.NoEnv? then [Opened(NoEnv)] else [Opened(env)] + [Written(Left(env, tag))]
  }

  function LeftByCutover(c: Course): EnvState {
    Left(c.env, Field(c.m, TARGET))
  }

  function Tagged(c: Course): seq<Effect> {
    [Polled(c.m)] + Tagging(c.env, Field(c.m, TARGET))
  }

  function Awaited(c: Course): seq<Effect> {
    Tagged(c) + [Up(true)] + seq(c.checks, _ => Health(false))
  }

  /** Tag written, backend up, healthy, sentinel marked. */
  function Upgrade(c: Course, timestamp: string): seq<Effect> {
    Awaited(c) + [Health(true)]
    + [Wrote(Data(c.m[STATE := "cutover_complete"]["cutover_completed_at" := timestamp]))]
  }

  function Undoing(c: Course): seq<Effect> {
    if Field(c.m, PREVIOUS) == "" then [] else Tagging(LeftByCutover(c), TagOnly(Field(c.m, PREVIOUS)))
  }

  function Untagged(c: Course): seq<Effect> {
    Awaited(c) + [TimedOut] + [Stopped] + Undoing(c)
  }

  /** Tag written, backend up, never healthy: backend stopped, previous tag written if there
      is one, database restored, backend up, sentinel marked. */
  function Rollback(c: Course): seq<Effect> {
    Untagged(c) + [DbBack] + [Up(c.up)]
    + [Wrote(Data(c.m[STATE := "rollback_complete"]["rollback_reason" := "watchdog_rollback"]))]
  }

  predicate Proper(c: Course) {
    IsPending(Data(c.m)) && TARGET in c.m
  }

  ghost predicate IsUpgrade(e: seq<Effect>) {
    exists c, timestamp :: Proper(c) && e == Upgrade(c, timestamp)
  }

  ghost predicate IsRollback(e: seq<Effect>) {
    exists c :: Proper(c) && e == Rollback(c)
  }

  /** The beginning of one of the two. */
  ghost predicate IsBeginning(e: seq<Effect>) {
    || (exists c, timestamp :: Proper(c) && e <= Upgrade(c, timestamp))
    || (exists c :: Proper(c) && e <= Rollback(c))
  }

  /** Ended by a death: an idle watchdog's, one at any point of the scripts, the one of a
      cutover without a target, and the one of a cutover whose backend does not start. */
  ghost predicate IsCutShort(e: seq<Effect>) {
    && e != [] && Last(e) == Died
    && var p := e[..|e| - 1];
       || p == [] || IsBeginning(p)
       || (exists m :: TARGET !in m && p == [Polled(m)])
       || (exists c :: Proper(c) && p == Tagged(c) + [Up(false)])
  }

  ghost predicate IsEpisode(e: seq<Effect>) {
    IsUpgrade(e) || IsRollback(e) || IsCutShort(e)
  }

  // ---------------------------------------------------------------- the invariant

  /** What has been done on a course by the time of a phase. */
  function Done(p: Phase, c: Course): seq<Effect> {
    match p
    case Down | Sleeping => []
    case CutoverRead(_) => [Polled(c.m)]
    case CutoverWrite(_, _) => [Polled(c.m)] + [Opened(c.env)]
    case CutoverUp(_) => Tagged(c)
    case AwaitHealth(_) => Awaited(c)
    case MarkComplete(_) => Awaited(c) + [Health(true)]
    case RollbackStop(_) => Awaited(c) + [TimedOut]
    case RollbackRead(_) => Awaited(c) + [TimedOut] + [Stopped]
    case RollbackWrite(_, _) => Awaited(c) + [TimedOut] + [Stopped] + [Opened(LeftByCutover(c))]
    case RestoreDb(_) => Untagged(c)
    case RollbackUp(_) => Untagged(c) + [DbBack]
    case MarkRolledBack(_) => Untagged(c) + [DbBack] + [Up(c.up)]
  }

  /** The env file at that time; while it is written, what it is about to be. */
  predicate EnvAt(s: State, c: Course) {
    match s.phase
    case Down | Sleeping | CutoverRead(_) => true
    case CutoverWrite(_, text) => c.env.Env? && Env(text) == LeftByCutover(c)
    case CutoverUp(_) | AwaitHealth(_) | MarkComplete(_) | RollbackStop(_) | RollbackRead(_) => s.env == LeftByCutover(c)
    case RollbackWrite(_, text) =>
      c.env.Env? && Field(c.m, PREVIOUS) != "" && Env(text) == Left(LeftByCutover(c), TagOnly(Field(c.m, PREVIOUS)))
    case RestoreDb(_) | RollbackUp(_) | MarkRolledBack(_) => true
  }

  predicate OnCourse(s: State, now: seq<Effect>, c: Course) {
    && now == Done(s.phase, c)
    && (Working(s.phase) ==> Proper(c) && c.m == s.phase.m && EnvAt(s, c))
  }

  lemma TaggingBegins(c: Course)
    ensures [Polled(c.m)] <= Tagged(c)
    ensures c.env.Env? ==> [Polled(c.m)] + [Opened(c.env)] <= Tagged(c)
  {
  }

  lemma UndoingBegins(c: Course)
    ensures var stopped := Awaited(c) + [TimedOut] + [Stopped];
            && Awaited(c) + [TimedOut] <= stopped <= Untagged(c)
            && (c.env.Env? && Field(c.m, PREVIOUS) != "" ==> stopped + [Opened(LeftByCutover(c))] <= Untagged(c))
  {
  }

  lemma ScriptBegins(c: Course)
    ensures Tagged(c) <= Awaited(c) <= Untagged(c) <= Rollback(c)
    ensures Untagged(c) + [DbBack] <= Untagged(c) + [DbBack] + [Up(c.up)] <= Rollback(c)
  {
    UndoingBegins(c);
  }

  lemma BeginningOf(e: seq<Effect>, part: seq<Effect>, c: Course)
    requires Proper(c) && e <= part <= Rollback(c)
    ensures IsBeginning(e)
  {
    assert e <= Rollback(c);
  }

  /** A phase is always in the middle of a script. */
  lemma Begins(s: State, c: Course)
    requires Working(s.phase) && Proper(c) && EnvAt(s, c)
    ensures IsBeginning(Done(s.phase, c))
  {
    var e := Done(s.phase, c);
    TaggingBegins(c);
    UndoingBegins(c);
    ScriptBegins(c);
    if s.phase.MarkComplete? {
      assert e <= Upgrade(c, "");
    } else if s.phase.CutoverRead? || s.phase.CutoverWrite? || s.phase.CutoverUp? {
      assert Tagged(c) <= Rollback(c);
      BeginningOf(e, Tagged(c), c);
    } else if s.phase.RollbackUp? || s.phase.MarkRolledBack? {
      BeginningOf(e, e, c);
    } else {
      assert Untagged(c) <= Rollback(c);
      assert e <= Untagged(c);
      BeginningOf(e, Untagged(c), c);
    }
  }

  lemma NoteTwo(h: History, x: Effect, y: Effect)
    ensures AllNoted(h, []) == h && AllNoted(h, [x]) == Noted(h, x)
    ensures AllNoted(h, [x] + [y]) == Noted(Noted(h, x), y)
  {
    assert ([x] + [y])[1..] == [y];
    assert AllNoted(h, [x] + [y]) == AllNoted(Noted(h, x), [y]);
  }

  predicate Dies(s: State, t: State) {
    !s.phase.Down? && t.phase.Down?
  }

  /** What a step that ends in a death adds. */
  lemma NotesDeath(s: State, a: Action, h: History)
    requires Enabled(s, a) && Dies(s, Next(s, a))
    ensures AllNoted(h, Effects(s, a, Next(s, a))) == History(h.done + [h.now + OwnEffects(s, a, Next(s, a)) + [Died]], [])
  {
    var own := OwnEffects(s, a, Next(s, a));
    NoteTwo(h, Died, Died);
    if own == [] {
      assert Effects(s, a, Next(s, a)) == [Died] && h.now + own == h.now;
    } else {
      NoteTwo(h, own[0], Died);
      assert own == [own[0]];
    }
  }

  lemma CutShort(p: seq<Effect>)
    requires p == [] || IsBeginning(p) || (exists m :: TARGET !in m && p == [Polled(m)])
             || (exists c :: Proper(c) && p == Tagged(c) + [Up(false)])
    ensures IsEpisode(p + [Died])
  {
    var e := p + [Died];
    assert e[..|e| - 1] == p;
  }

  /** A death ends an episode cut short. */
  lemma DeathStep(s: State, a: Action, now: seq<Effect>, c: Course)
    requires Enabled(s, a) && OnCourse(s, now, c) && Dies(s, Next(s, a))
    ensures IsEpisode(now + OwnEffects(s, a, Next(s, a)) + [Died])
  {
    var own := OwnEffects(s, a, Next(s, a));
    if a.Die? {
      assert now + own == now;
      if Working(s.phase) {
        Begins(s, c);
      }
    } else if a.Poll? {
      assert now + own == [Polled(s.sentinel.fields)];
    } else {
      assert a == ComposeReturns(false) && now + own == Tagged(c) + [Up(false)];
    }
    CutShort(now + own);
  }

  /** A mark ends an upgrade or a rollback. */
  lemma MarkStep(s: State, timestamp: string, now: seq<Effect>, c: Course)
    requires Enabled(s, WriteSentinel(timestamp)) && OnCourse(s, now, c)
    ensures Next(s, WriteSentinel(timestamp)).phase.Sleeping?
    ensures IsEpisode(now + [Wrote(Next(s, WriteSentinel(timestamp)).sentinel)])
  {
    var e := now + [Wrote(Next(s, WriteSentinel(timestamp)).sentinel)];
    if s.phase.MarkComplete? {
      assert e == Upgrade(c, timestamp);
    } else {
      assert e == Rollback(c);
    }
  }

  lemma CutoverOpens(s: State, c: Course) returns (c': Course)
    requires s.phase.CutoverRead? && OnCourse(s, Done(s.phase, c), c)
    ensures OnCourse(Next(s, OpenEnv), Done(s.phase, c) + [Opened(s.env)], c')
  {
    c' := c.(env := s.env);
    assert Next(s, OpenEnv) == OpenedForCutover(s, s.phase.m);
    if s.env.NoEnv? {
      assert Tagged(c') == [Polled(c.m)] + [Opened(NoEnv)];
    }
  }

  lemma RollbackOpens(s: State, c: Course)
    requires s.phase.RollbackRead? && OnCourse(s, Done(s.phase, c), c)
    ensures var own := OwnEffects(s, OpenEnv, Next(s, OpenEnv));
            OnCourse(Next(s, OpenEnv), Done(s.phase, c) + own, c)
  {
    assert Next(s, OpenEnv) == OpenedForRollback(s, s.phase.m);
  }

  lemma CutoverFlushes(s: State, c: Course)
    requires s.phase.CutoverWrite? && OnCourse(s, Done(s.phase, c), c)
    ensures OnCourse(Next(s, FlushEnv), Done(s.phase, c) + [Written(Next(s, FlushEnv).env)], c)
  {
    assert Done(s.phase, c) + [Written(LeftByCutover(c))] == Tagged(c);
  }

  lemma RollbackFlushes(s: State, c: Course)
    requires s.phase.RollbackWrite? && OnCourse(s, Done(s.phase, c), c)
    ensures OnCourse(Next(s, FlushEnv), Done(s.phase, c) + [Written(Next(s, FlushEnv).env)], c)
  {
    var stopped, undone := Awaited(c) + [TimedOut] + [Stopped], Left(LeftByCutover(c), TagOnly(Field(c.m, PREVIOUS)));
    Regrouped(stopped, [Opened(LeftByCutover(c))], [Written(undone)]);
    assert Next(s, FlushEnv).env == undone && Next(s, FlushEnv).phase == RestoreDb(c.m);
  }

  lemma CheckFails(s: State, c: Course) returns (c': Course)
    requires s.phase.AwaitHealth? && OnCourse(s, Done(s.phase, c), c)
    ensures OnCourse(Next(s, HealthCheck(false)), Done(s.phase, c) + [Health(false)], c')
  {
    c' := c.(checks := c.checks + 1);
    var checks := seq(c.checks, _ => Health(false));
    assert seq(c'.checks, _ => Health(false)) == checks + [Health(false)];
    assert Tagged(c') == Tagged(c);
    assert Awaited(c') == Awaited(c) + [Health(false)];
  }

  lemma BackendUp(s: State, ok: bool, c: Course) returns (c': Course)
    requires Enabled(s, ComposeReturns(ok)) && OnCourse(s, Done(s.phase, c), c) && (s.phase.CutoverUp? ==> ok)
    ensures OnCourse(Next(s, ComposeReturns(ok)), Done(s.phase, c) + [Up(ok)], c')
  {
    if s.phase.CutoverUp? {
      c' := c.(checks := 0);
      assert Awaited(c') == Tagged(c) + [Up(true)];
    } else {
      c' := c.(up := ok);
      assert Untagged(c') == Untagged(c);
    }
  }

  /** Every other step keeps to the script. */
  lemma ScriptStep(s: State, a: Action, now: seq<Effect>, c: Course) returns (c': Course)
    requires Enabled(s, a) && OnCourse(s, now, c) && !Dies(s, Next(s, a)) && !a.WriteSentinel?
    ensures OnCourse(Next(s, a), now + OwnEffects(s, a, Next(s, a)), c')
  {
    c' := c;
    if a.Poll? {
      if IsPending(s.sentinel) {
        c' := Course(s.sentinel.fields, NoEnv, 0, false);
      }
    } else if a.OpenEnv? {
      if s.phase.CutoverRead? {
        c' := CutoverOpens(s, c);
      } else {
        RollbackOpens(s, c);
      }
    } else if a.FlushEnv? {
      if s.phase.CutoverWrite? {
        CutoverFlushes(s, c);
      } else {
        RollbackFlushes(s, c);
      }
    } else if a.HealthCheck? && !a.ok {
      c' := CheckFails(s, c);
    } else if a.ComposeReturns? {
      c' := BackendUp(s, a.ok, c);
    } else {
      OtherScriptStep(s, a, now, c);
    }
  }

  lemma OtherScriptStep(s: State, a: Action, now: seq<Effect>, c: Course)
    requires Enabled(s, a) && OnCourse(s, now, c) && !Dies(s, Next(s, a))
    requires a.Restart? || a.OthersWrite? || a == HealthCheck(true) || a.HealthTimeout? || a.StopReturns? || a.DbRestored?
    ensures OnCourse(Next(s, a), now + OwnEffects(s, a, Next(s, a)), c)
  {
  }

  lemma NotesOwn(s: State, a: Action, h: History)
    requires Enabled(s, a) && !Dies(s, Next(s, a)) && !a.WriteSentinel?
    ensures AllNoted(h, Effects(s, a, Next(s, a))) == History(h.done, h.now + OwnEffects(s, a, Next(s, a)))
  {
    var own := OwnEffects(s, a, Next(s, a));
    if own != [] {
      NoteTwo(h, own[0], Died);
      assert own == [own[0]] && Effects(s, a, Next(s, a)) == [own[0]];
    }
  }

  // --------------------------------------------------------------- every run

  /** Every finished episode is one of the three, and the one under way keeps to its script. */
  ghost predicate Orderly(s: State, h: History) {
    (forall e :: e in h.done ==> IsEpisode(e)) && exists c :: OnCourse(s, h.now, c)
  }

  lemma OrderlyStep(s: State, a: Action, h: History)
    requires Enabled(s, a) && Orderly(s, h)
    ensures Orderly(Next(s, a), AllNoted(h, Effects(s, a, Next(s, a))))
  {
    var t := Next(s, a);
    var c :| OnCourse(s, h.now, c);
    if Dies(s, t) {
      NotesDeath(s, a, h);
      DeathStep(s, a, h.now, c);
      EndsEpisode(t, h, h.now + OwnEffects(s, a, t) + [Died], c);
    } else if a.WriteSentinel? {
      assert Effects(s, a, t) == [Wrote(t.sentinel)];
      NoteTwo(h, Wrote(t.sentinel), Died);
      MarkStep(s, a.timestamp, h.now, c);
      EndsEpisode(t, h, h.now + [Wrote(t.sentinel)], c);
    } else {
      var c' := ScriptStep(s, a, h.now, c);
      NotesOwn(s, a, h);
    }
  }

  lemma EndsEpisode(t: State, h: History, e: seq<Effect>, c: Course)
    requires (forall d :: d in h.done ==> IsEpisode(d)) && IsEpisode(e) && !Working(t.phase)
    ensures Orderly(t, History(h.done + [e], []))
  {
    assert OnCourse(t, [], c);
  }

  lemma {:induction false} OrderlyOverRun(s: State, acts: seq<Action>, s': State, h: History)
    requires Run(s, acts, s') && Orderly(s, h)
    ensures Orderly(s', Observed(s, acts, h))
    decreases |acts|
  {
    if acts != [] {
      OrderlyStep(s, acts[0], h);
      OrderlyOverRun(Next(s, acts[0]), acts[1..], s', AllNoted(h, Effects(s, acts[0], Next(s, acts[0]))));
    }
  }

  /** In every run, whenever others write the sentinel and whenever the watchdog dies: what it
      did is a sequence of upgrades, rollbacks and episodes cut short by its death, and in a
      watchdog that works the beginning of one.  A watchdog that sleeps or is down has left
      nothing unfinished. */
  lemma EpisodesAreScripted(sentinel: SentinelFile, env: EnvState, acts: seq<Action>, s: State)
    requires Run(Start(sentinel, env), acts, s)
    ensures var h := Observed(Start(sentinel, env), acts, Nothing);
            && (forall e :: e in h.done ==> IsUpgrade(e) || IsRollback(e) || IsCutShort(e))
            && (if Working(s.phase) then IsBeginning(h.now) && Polled(s.phase.m) in h.now else h.now == [])
  {
    var from := Start(sentinel, env);
    assert OnCourse(from, [], Course(map[], NoEnv, 0, false));
    OrderlyOverRun(from, acts, s, Nothing);
    var h := Observed(from, acts, Nothing);
    var c :| OnCourse(s, h.now, c);
    if Working(s.phase) {
      Begins(s, c);
      DoneWasPolled(s.phase, c);
    }
  }

  lemma DoneWasPolled(p: Phase, c: Course)
    requires Working(p)
    ensures Polled(c.m) in Done(p, c)
  {
    assert Tagged(c)[0] == Polled(c.m);
    assert Polled(c.m) in Awaited(c);
  }

  lemma NoTimeoutInUpgrade(c: Course, timestamp: string)
    ensures TimedOut !in Upgrade(c, timestamp)
  {
    assert TimedOut !in Tagged(c);
    assert TimedOut !in seq(c.checks, _ => Health(false));
  }

  /** So a health wait that timed out is followed by the whole rollback in its order, unless
      the watchdog dies on the way. */
  lemma TimeoutRollsBack(sentinel: SentinelFile, env: EnvState, acts: seq<Action>, s: State, e: seq<Effect>)
    requires Run(Start(sentinel, env), acts, s)
    requires e in Observed(Start(sentinel, env), acts, Nothing).done && TimedOut in e && Last(e) != Died
    ensures IsRollback(e)
  {
    EpisodesAreScripted(sentinel, env, acts, s);
    if c, timestamp :| Proper(c) && e == Upgrade(c, timestamp) {
      NoTimeoutInUpgrade(c, timestamp);
    }
  }

  // -------------------------------------------------------------- every episode ends

  /** Steps of a watchdog that survives, with a cutover whose backend starts and nobody else
      at the sentinel. */
  predicate Undisturbed(a: Action) {
    !a.Die? && !a.OthersWrite? && a != ComposeReturns(false)
  }

  /** How an episode ends, by the answer to the health checks that are still to come. */
  function Ending(p: Phase, healthy: bool): Verdict {
    match p
    case MarkComplete(_) => Complete
    case RollbackStop(_) | RollbackRead(_) | RollbackWrite(_, _) | RestoreDb(_) | RollbackUp(_) | MarkRolledBack(_) => RolledBack
    case _ => if healthy then Complete else RolledBack
  }

  function Following(p: Phase, healthy: bool): Action {
    match p
    case Down => Restart
    case Sleeping => Poll
    case CutoverRead(_) | RollbackRead(_) => OpenEnv
    case CutoverWrite(_, _) | RollbackWrite(_, _) => FlushEnv
    case CutoverUp(_) | RollbackUp(_) => ComposeReturns(true)
    case AwaitHealth(_) => if healthy then HealthCheck(true) else HealthTimeout
    case RollbackStop(_) => StopReturns
    case RestoreDb(_) => DbRestored
    case MarkComplete(_) | MarkRolledBack(_) => WriteSentinel("now")
  }

  function StepsLeft(p: Phase): nat {
    match p
    case Down => 13
    case Sleeping => 12
    case CutoverRead(_) => 11
    case CutoverWrite(_, _) => 10
    case CutoverUp(_) => 9
    case AwaitHealth(_) => 8
    case RollbackStop(_) => 7
    case RollbackRead(_) => 6
    case RollbackWrite(_, _) => 5
    case RestoreDb(_) => 4
    case RollbackUp(_) => 3
    case MarkRolledBack(_) | MarkComplete(_) => 2
  }

  predicate HasWork(s: State) {
    Working(s.phase) || (IsPending(s.sentinel) && TARGET in s.sentinel.fields)
  }

  predicate Nearer(s: State, t: State, healthy: bool) {
    HasWork(t) && StepsLeft(t.phase) < StepsLeft(s.phase) && Ending(t.phase, healthy) == Ending(s.phase, healthy)
  }

  lemma EnvStepIsNearer(s: State, healthy: bool)
    requires s.phase.CutoverRead? || s.phase.RollbackRead? || s.phase.CutoverWrite? || s.phase.RollbackWrite?
    ensures var a := Following(s.phase, healthy);
            Enabled(s, a) && Undisturbed(a) && !a.WriteSentinel? && Nearer(s, Next(s, a), healthy)
  {
  }

  lemma MarkEnds(s: State, healthy: bool)
    requires s.phase.MarkComplete? || s.phase.MarkRolledBack?
    ensures var a := Following(s.phase, healthy);
            && a.WriteSentinel? && Enabled(s, a) && Undisturbed(a)
            && Next(s, a).phase.Sleeping? && Next(s, a).verdict == Ending(s.phase, healthy)
  {
  }

  lemma OtherStepIsNearer(s: State, healthy: bool)
    requires HasWork(s) && !s.phase.MarkComplete? && !s.phase.MarkRolledBack?
    requires !(s.phase.CutoverRead? || s.phase.RollbackRead? || s.phase.CutoverWrite? || s.phase.RollbackWrite?)
    ensures var a := Following(s.phase, healthy);
            Enabled(s, a) && Undisturbed(a) && !a.WriteSentinel? && Nearer(s, Next(s, a), healthy)
  {
  }

  /** From every state with a cutover pending or under way, both endings can be reached as long
      as the health check is open, and the one that is left afterwards: nothing but deaths,
      other writers and a backend that does not start can keep the watchdog from it. */
  lemma {:induction false} EpisodeCanEnd(s: State, healthy: bool) returns (acts: seq<Action>, s': State)
    requires HasWork(s)
    ensures Run(s, acts, s') && (forall a :: a in acts ==> Undisturbed(a))
    ensures s'.phase.Sleeping? && s'.verdict == Ending(s.phase, healthy)
    decreases StepsLeft(s.phase)
  {
    var a := Following(s.phase, healthy);
    if s.phase.MarkComplete? || s.phase.MarkRolledBack? {
      MarkEnds(s, healthy);
      acts, s' := [a], Next(s, a);
      assert Run(s', acts[1..], s');
    } else {
      if a.OpenEnv? || a.FlushEnv? {
        EnvStepIsNearer(s, healthy);
      } else {
        OtherStepIsNearer(s, healthy);
      }
      var rest: seq<Action>;
      rest, s' := EpisodeCanEnd(Next(s, a), healthy);
      acts := [a] + rest;
      assert acts[1..] == rest;
    }
  }
}
