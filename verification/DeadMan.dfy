/**
 The dead man's switch of an IP change: a rollback record written before the change,
 a goroutine that probes and rolls back at the deadline, and recovery of the record when
 the agent restarts.  One switch is outstanding; the agent may crash between any two
 steps, writing the record included.
 */
module DeadMan {
  import opened Text

  /** The record file: not there, cut short by a crash or a failed write, or readable. */
  datatype Disk = Absent | Torn | Record(deadline: int)

  /** The goroutine of `startDeadManSwitch`, from its first probe to its return. */
  datatype Switch =
    | NoSwitch
    | FirstProbe(deadline: int)
    | Selecting(deadline: int)
    | Probing(deadline: int)
    | Disarming
    | RolledBack
    | Finished

  /** The `commit_timer` branch of the job that changes the address. */
  datatype Job =
    | NotStarted
    | Arming(deadline: int)
    | Writing(deadline: int)
    | Armed
    | Over

  /** `checkPendingRollback`, which runs before any job; it gives up when it leaves a file
      behind that it could not take over. */
  datatype Startup =
    | Reading
    | Expired
    | Rearming(deadline: int)
    | Rewriting(deadline: int)
    | Ready(gaveUp: bool)

  datatype Event = RollbackCalled(at: int) | FileRemoved

  datatype State = State(
    now: int,
    disk: Disk,
    up: bool,
    startup: Startup,
    job: Job,
    switch: Switch,
    // history
    startedAt: int,
    armed: Option<int>,
    applied: bool,
    probed: bool,
    events: seq<Event>,
    calls: nat,
    removed: bool,
    midCrashes: nat,
    lost: bool,
    // history of the applied change
    early: bool,
    answered: bool,
    outlived: bool
  )

  function Start(now: int): State {
    State(now, Absent, false, Reading, NotStarted, NoSwitch, now, None, false, false, [], 0, false, 0, false,
          false, false, false)
  }

  datatype Action =
    | Tick(seconds: nat)
    | Crash
    | Restart
    // startup
    | ReadRecord
    | ReadFails
    | RemoveExpired
    | OpenFails
    | Truncate
    | WriteFails
    | WriteDone
    // job
    | StartJob(timerSeconds: int)
    | ApplyChange(ok: bool)
    // goroutine
    | ProbeReturns(ok: bool)
    | TickerFires
    | ExpiryFires
    | RemoveFile

  /** The job's `commit_timer_seconds`, kept between 10 and 300. */
  function Clamp(timerSeconds: int): (t: int)
    ensures 10 <= t <= 300
  {
    if timerSeconds < 10 then 10 else if timerSeconds > 300 then 300 else timerSeconds
  }

  predicate StartupWrites(s: State) {
    s.startup.Rearming? || s.startup.Rewriting?
  }

  predicate Enabled(s: State, a: Action) {
    match a
    case Tick(_) => true
    case Crash => s.up
    case Restart => !s.up
    case ReadRecord => s.up && s.startup.Reading?
    case ReadFails => s.up && s.startup.Reading?
    case RemoveExpired => s.up && s.startup.Expired?
    case OpenFails => s.up && (s.startup.Rearming? || (s.startup.Ready? && s.job.Arming?))
    case Truncate => s.up && (s.startup.Rearming? || (s.startup.Ready? && s.job.Arming?))
    case WriteFails => s.up && (s.startup.Rewriting? || (s.startup.Ready? && s.job.Writing?))
    case WriteDone => s.up && (s.startup.Rewriting? || (s.startup.Ready? && s.job.Writing?))
    case StartJob(_) => s.up && s.startup.Ready? && s.job.NotStarted?
    case ApplyChange(_) => s.up && s.job.Armed?
    case ProbeReturns(_) => s.up && (s.switch.FirstProbe? || s.switch.Probing?)
    case TickerFires => s.up && s.switch.Selecting?
    case ExpiryFires => s.up && s.switch.Selecting? && s.now >= s.switch.deadline
    case RemoveFile => s.up && (s.switch.Disarming? || s.switch.RolledBack?)
  }

  /** Between a call of `rollbackFn` and the removal that follows it. */
  predicate InCall(s: State) {
    s.up && (s.startup.Expired? || s.switch.RolledBack?)
  }

  /** A decision has been taken whose removal of the file is still to come. */
  predicate RemovalPending(s: State) {
    InCall(s) || (s.up && s.switch.Disarming?)
  }

  predicate Decided(s: State) {
    s.probed || s.calls > 0
  }

  /** The record on disk has expired. */
  predicate IsLate(s: State) {
    s.disk.Record? && s.now > s.disk.deadline
  }

  function Called(s: State): State {
    s.(events := s.events + [RollbackCalled(s.now)], calls := s.calls + 1, answered := s.answered || s.applied)
  }

  function Removed(s: State): State {
    s.(disk := Absent, events := s.events + [FileRemoved], removed := true)
  }

  function Next(s: State, a: Action): State
    requires Enabled(s, a)
  {
    match a
    case Tick(seconds) => s.(now := s.now + seconds)
    case Crash =>
      s.(up := false, startup := Reading, switch := NoSwitch, job := if s.job.NotStarted? then NotStarted else Over,
         midCrashes := s.midCrashes + (if InCall(s) then 1 else 0),
         lost := s.lost || s.startup.Rewriting?,
         outlived := s.outlived || (s.applied && RemovalPending(s)))
    case Restart => s.(up := true, startup := Reading)
    case ReadRecord =>
      if !s.disk.Record? then s.(startup := Ready(s.disk.Torn?))
      else if IsLate(s) then Called(s).(startup := Expired)
      else s.(startup := Rearming(s.disk.deadline))
    case ReadFails => s.(startup := Ready(!s.disk.Absent?))
    case RemoveExpired => Removed(s).(startup := Ready(false))
    case OpenFails =>
      if s.startup.Rearming? then s.(startup := Ready(true)) else s.(job := Over)
    case Truncate =>
      if s.startup.Rearming? then s.(startup := Rewriting(s.startup.deadline), disk := Torn)
      else s.(job := Writing(s.job.deadline), disk := Torn)
    case WriteFails =>
      if s.startup.Rewriting? then s.(startup := Ready(true), lost := true) else s.(job := Over)
    case WriteDone =>
      if s.startup.Rewriting? then
        s.(startup := Ready(false), disk := Record(s.startup.deadline), switch := FirstProbe(s.startup.deadline))
      else
        s.(job := Armed, disk := Record(s.job.deadline), switch := FirstProbe(s.job.deadline), armed := Some(s.job.deadline))
    case StartJob(timerSeconds) => s.(job := Arming(s.now + Clamp(timerSeconds)), startedAt := s.now)
    case ApplyChange(ok) => s.(job := Over, applied := ok, early := ok && Decided(s))
    case ProbeReturns(ok) =>
      if ok then s.(switch := Disarming, probed := true, answered := s.answered || s.applied) else s.(switch := Selecting(s.switch.deadline))
    case TickerFires => s.(switch := Probing(s.switch.deadline))
    case ExpiryFires => Called(s).(switch := RolledBack)
    case RemoveFile => Removed(s).(switch := Finished)
  }

  ghost predicate Run(s: State, acts: seq<Action>, s': State)
    decreases |acts|
  {
    if acts == [] then s == s'
    else Enabled(s, acts[0]) && Run(Next(s, acts[0]), acts[1..], s')
  }

  // -------------------------------------------------------------- the invariant

  function Calls(events: seq<Event>): nat {
    if events == [] then 0
    else Calls(events[..|events| - 1]) + if events[|events| - 1].RollbackCalled? then 1 else 0
  }

  lemma CallsAppend(events: seq<Event>, e: Event)
    ensures Calls(events + [e]) == Calls(events) + if e.RollbackCalled? then 1 else 0
    ensures FileRemoved in events + [e] <==> FileRemoved in events || e == FileRemoved
  {
    assert (events + [e])[..|events|] == events;
  }

  /** The record still has work to do: armed, no probe has succeeded, no rollback called. */
  predicate Undecided(s: State) {
    s.armed.Some? && !Decided(s)
  }

  predicate Live(w: Switch) {
    w.FirstProbe? || w.Selecting? || w.Probing?
  }

  /** Every copy of the deadline is the armed one, at least 10 and at most 300 seconds after
      the job started. */
  predicate DeadlineKept(s: State) {
    && (s.disk.Record? ==> s.armed == Some(s.disk.deadline))
    && (Live(s.switch) ==> s.armed == Some(s.switch.deadline))
    && (StartupWrites(s) ==> s.armed == Some(s.startup.deadline))
    && (s.armed.Some? ==> s.startedAt + 10 <= s.armed.value <= s.startedAt + 300)
    && (s.job.Arming? || s.job.Writing? ==> s.startedAt + 10 <= s.job.deadline <= s.startedAt + 300)
  }

  /** Which phases go together. */
  predicate Coherent(s: State) {
    && (!s.up ==> s.startup.Reading? && s.switch.NoSwitch?)
    && (!s.startup.Ready? ==> s.switch.NoSwitch? && (s.job.NotStarted? || s.job.Over?))
    && (s.armed.None? ==> s.switch.NoSwitch? && !s.probed && s.calls == 0 && !s.removed && !s.lost
                          && (s.startup.Reading? || s.startup.Ready?) && !s.disk.Record? && s.midCrashes == 0)
    && (s.armed.Some? ==> s.job.Armed? || s.job.Over?)
    && (s.applied || s.job.Armed? ==> s.armed.Some?)
    && (s.job.Armed? ==> s.up)
    && (s.job.Arming? || s.job.Writing? ==> s.up && s.armed.None?)
    && (s.startup.Expired? || s.switch.RolledBack? ==> s.up && s.disk.Record?)
    && (s.startup.Rearming? ==> s.disk.Record?)
    && (s.startup.Rewriting? ==> s.disk.Torn?)
    && (Live(s.switch) || s.switch.Disarming? ==> s.disk.Record?)
    && (s.switch.Finished? ==> s.disk.Absent?)
    && (s.lost ==> s.disk.Torn? && s.switch.NoSwitch? && (s.startup.Reading? || s.startup.Ready?))
    && (s.switch.Disarming? ==> s.probed)
    && (s.job.NotStarted? || s.job.Arming? ==> s.disk.Absent? && s.armed.None?)
    && (s.startup.Ready? && s.startup.gaveUp ==> s.job.Over?)
  }

  /** What the file, the events and the history say of one another. */
  predicate Accounted(s: State) {
    && (s.removed ==> s.disk.Absent? && (s.switch.NoSwitch? || s.switch.Finished?)
                                    && (s.startup.Reading? || s.startup.Ready?))
    && (s.armed.Some? && s.disk.Absent? ==> s.removed && (s.probed || s.calls > 0))
    && (s.armed.Some? && s.disk.Torn? ==> s.lost || s.startup.Rewriting?)
    && s.midCrashes <= s.calls <= s.midCrashes + 1
    && (s.calls == s.midCrashes + 1 ==> InCall(s) || s.removed)
    && (InCall(s) ==> s.calls == s.midCrashes + 1)
    && (s.up && s.startup.Ready? && Undecided(s) ==> (Live(s.switch) <==> !s.startup.gaveUp))
  }

  /** No call before the deadline or in the future, none after the removal. */
  predicate LawfulLog(events: seq<Event>, armed: Option<int>, now: int) {
    && (forall i :: 0 <= i < |events| && events[i].RollbackCalled? ==>
          armed.Some? && armed.value <= events[i].at <= now)
    && (forall i, j :: 0 <= i < j < |events| ==> !(events[i].FileRemoved? && events[j].RollbackCalled?))
  }

  predicate Lawful(s: State) {
    s.calls == Calls(s.events) && (s.removed <==> FileRemoved in s.events) && LawfulLog(s.events, s.armed, s.now)
  }

  /** What became of an applied change. */
  predicate Followed(s: State) {
    && (!s.applied ==> !s.early && !s.answered && !s.outlived)
    && (s.applied ==> s.job.Over?)
    && (s.job.Armed? ==> (Decided(s) <==> RemovalPending(s) || s.removed))
    && (s.answered ==> Decided(s))
    && (s.applied && !EarlyStands(s) && (s.removed || RemovalPending(s)) ==> s.answered)
    && (EarlyStands(s) ==> !s.answered && !s.lost && (s.removed || RemovalPending(s)))
  }

  /** A decision older than the change, not survived by the record so far. */
  predicate EarlyStands(s: State) {
    s.early && !s.outlived
  }

  predicate InOrder(s: State) {
    DeadlineKept(s) && Coherent(s) && Accounted(s) && Followed(s)
  }

  predicate Invariant(s: State) {
    InOrder(s) && Lawful(s)
  }

  lemma InvariantAtStart(now: int)
    ensures Invariant(Start(now))
  {
  }

  predicate OfProcess(a: Action) {
    a.Tick? || a.Crash? || a.Restart?
  }

  predicate OfStartup(a: Action) {
    a.ReadRecord? || a.ReadFails? || a.RemoveExpired?
  }

  predicate OfWriting(a: Action) {
    a.OpenFails? || a.Truncate? || a.WriteFails? || a.WriteDone?
  }

  predicate OfJob(a: Action) {
    a.StartJob? || a.ApplyChange?
  }

  predicate OfSwitch(a: Action) {
    a.ProbeReturns? || a.TickerFires? || a.ExpiryFires? || a.RemoveFile?
  }

  lemma ProcessStep(s: State, a: Action)
    requires Enabled(s, a) && OfProcess(a) && InOrder(s)
    ensures DeadlineKept(Next(s, a)) && Coherent(Next(s, a)) && Accounted(Next(s, a))
  {
  }

  lemma StartupStep(s: State, a: Action)
    requires Enabled(s, a) && OfStartup(a) && InOrder(s)
    ensures DeadlineKept(Next(s, a)) && Coherent(Next(s, a)) && Accounted(Next(s, a))
  {
    if a.ReadRecord? {
      ReadingStep(s, a);
    }
  }

  lemma ReadingStep(s: State, a: Action)
    requires Enabled(s, a) && a.ReadRecord? && InOrder(s)
    ensures DeadlineKept(Next(s, a)) && Coherent(Next(s, a)) && Accounted(Next(s, a)) && Followed(Next(s, a))
  {
    if IsLate(s) {
      assert Next(s, a).startup.Expired?;
    } else {
      assert Next(s, a).disk == s.disk && Next(s, a).calls == s.calls;
    }
  }

  lemma WritingStep(s: State, a: Action)
    requires Enabled(s, a) && OfWriting(a) && InOrder(s)
    ensures DeadlineKept(Next(s, a)) && Coherent(Next(s, a)) && Accounted(Next(s, a))
  {
  }

  lemma JobStep(s: State, a: Action)
    requires Enabled(s, a) && OfJob(a) && InOrder(s)
    ensures DeadlineKept(Next(s, a)) && Coherent(Next(s, a)) && Accounted(Next(s, a))
  {
  }

  lemma SwitchStep(s: State, a: Action)
    requires Enabled(s, a) && OfSwitch(a) && InOrder(s)
    ensures DeadlineKept(Next(s, a)) && Coherent(Next(s, a)) && Accounted(Next(s, a))
  {
    if a.ExpiryFires? {
      ExpiryStep(s, a);
    } else if a.RemoveFile? {
      RemoveStep(s, a);
    } else {
      ProbingStep(s, a);
    }
  }

  lemma ProbingStep(s: State, a: Action)
    requires Enabled(s, a) && (a.ProbeReturns? || a.TickerFires?) && InOrder(s)
    ensures DeadlineKept(Next(s, a)) && Coherent(Next(s, a)) && Accounted(Next(s, a))
  {
    if a.TickerFires? {
      assert Next(s, a).switch == Probing(s.switch.deadline);
    } else if a.ok {
      assert Next(s, a).switch == Disarming;
    } else {
      assert Next(s, a).switch == Selecting(s.switch.deadline);
    }
  }

  lemma ExpiryStep(s: State, a: Action)
    requires Enabled(s, a) && a.ExpiryFires? && InOrder(s)
    ensures DeadlineKept(Next(s, a)) && Coherent(Next(s, a)) && Accounted(Next(s, a))
  {
    assert Next(s, a).calls == s.calls + 1 && Next(s, a).switch.RolledBack?;
  }

  lemma RemoveStep(s: State, a: Action)
    requires Enabled(s, a) && a.RemoveFile? && InOrder(s)
    ensures DeadlineKept(Next(s, a)) && Coherent(Next(s, a)) && Accounted(Next(s, a))
  {
    assert Next(s, a).disk.Absent? && Next(s, a).switch.Finished?;
  }

  lemma ProcessFollows(s: State, a: Action)
    requires Enabled(s, a) && (OfProcess(a) || OfJob(a)) && InOrder(s)
    ensures Followed(Next(s, a))
  {
  }

  lemma StartupFollows(s: State, a: Action)
    requires Enabled(s, a) && (OfStartup(a) || OfWriting(a)) && InOrder(s)
    ensures Followed(Next(s, a))
  {
    if a.ReadRecord? {
      ReadingStep(s, a);
    }
  }

  lemma SwitchFollows(s: State, a: Action)
    requires Enabled(s, a) && OfSwitch(a) && InOrder(s)
    ensures Followed(Next(s, a))
  {
  }

  // -------------------------------------------------------------- the event log

  /** The event a step adds to the log. */
  function Logged(s: State, a: Action): Option<Event>
    requires Enabled(s, a)
  {
    if a.ExpiryFires? || (a.ReadRecord? && IsLate(s)) then Some(RollbackCalled(s.now))
    else if a.RemoveFile? || a.RemoveExpired? then Some(FileRemoved)
    else None
  }

  function WithEvent(events: seq<Event>, e: Option<Event>): seq<Event> {
    if e.Some? then events + [e.value] else events
  }

  predicate IsCall(e: Option<Event>) {
    e.Some? && e.value.RollbackCalled?
  }

  /** `s'` is `s` after an event, as far as the log is concerned. */
  predicate LogGrows(s: State, s': State, e: Option<Event>) {
    && s'.now >= s.now && (s'.armed == s.armed || (s.armed.None? && e.None?))
    && s'.events == WithEvent(s.events, e)
    && s'.calls == (if IsCall(e) then s.calls + 1 else s.calls)
    && (s'.removed <==> s.removed || e == Some(FileRemoved))
  }

  lemma ProcessLogs(s: State, a: Action)
    requires Enabled(s, a) && OfProcess(a)
    ensures LogGrows(s, Next(s, a), None)
  {
  }

  lemma WritingLogs(s: State, a: Action)
    requires Enabled(s, a) && (OfWriting(a) || OfJob(a)) && Coherent(s)
    ensures LogGrows(s, Next(s, a), None)
  {
    if a.WriteDone? && !s.startup.Rewriting? {
      assert s.armed.None?;
    }
  }

  lemma ReadingLogs(s: State, a: Action)
    requires Enabled(s, a) && a.ReadRecord?
    ensures LogGrows(s, Next(s, a), if IsLate(s) then Some(RollbackCalled(s.now)) else None)
  {
    if IsLate(s) {
      ReadingLateIs(s);
    } else {
      ReadingOtherwiseIs(s);
    }
  }

  lemma ReadingLateIs(s: State)
    requires Enabled(s, ReadRecord) && IsLate(s)
    ensures Next(s, ReadRecord) == Called(s).(startup := Expired)
  {
  }

  lemma ReadingOtherwiseIs(s: State)
    requires Enabled(s, ReadRecord) && !IsLate(s)
    ensures Next(s, ReadRecord) == s.(startup := Next(s, ReadRecord).startup)
  {
  }

  lemma StartupLogs(s: State, a: Action)
    requires Enabled(s, a) && OfStartup(a)
    ensures LogGrows(s, Next(s, a), Logged(s, a))
  {
    if a.ReadRecord? {
      ReadingLogs(s, a);
    }
  }

  lemma ExpiryLogs(s: State, a: Action)
    requires Enabled(s, a) && a.ExpiryFires?
    ensures LogGrows(s, Next(s, a), Some(RollbackCalled(s.now)))
  {
    assert Next(s, a).calls == s.calls + 1;
  }

  lemma RemovalLogs(s: State, a: Action)
    requires Enabled(s, a) && a.RemoveFile?
    ensures LogGrows(s, Next(s, a), Some(FileRemoved))
  {
    assert Next(s, a).removed;
  }

  lemma ProbingLogs(s: State, a: Action)
    requires Enabled(s, a) && (a.ProbeReturns? || a.TickerFires?)
    ensures LogGrows(s, Next(s, a), None)
  {
    if a.TickerFires? {
      assert Next(s, a).switch == Probing(s.switch.deadline);
    } else if a.ok {
      assert Next(s, a).switch == Disarming;
    } else {
      assert Next(s, a).switch == Selecting(s.switch.deadline);
    }
  }

  lemma SwitchLogs(s: State, a: Action)
    requires Enabled(s, a) && OfSwitch(a)
    ensures LogGrows(s, Next(s, a), Logged(s, a))
  {
    if a.ExpiryFires? {
      ExpiryLogs(s, a);
    } else if a.RemoveFile? {
      RemovalLogs(s, a);
    } else {
      ProbingLogs(s, a);
    }
  }

  lemma StepLogs(s: State, a: Action)
    requires Enabled(s, a) && Coherent(s)
    ensures LogGrows(s, Next(s, a), Logged(s, a))
  {
    if OfProcess(a) {
      ProcessLogs(s, a);
    } else if OfStartup(a) {
      StartupLogs(s, a);
    } else if OfSwitch(a) {
      SwitchLogs(s, a);
    } else {
      WritingLogs(s, a);
    }
  }

  lemma ArmedStays(s: State, a: Action)
    requires Enabled(s, a) && Coherent(s) && s.armed.Some?
    ensures Next(s, a).armed == s.armed
  {
    StepLogs(s, a);
  }

  lemma CallIsDue(s: State, a: Action)
    requires Enabled(s, a) && DeadlineKept(s) && Coherent(s) && Accounted(s)
    requires IsCall(Logged(s, a))
    ensures Logged(s, a).value.at == s.now && !s.removed && s.armed.Some? && s.armed.value <= s.now
  {
  }

  lemma LogAppend(events: seq<Event>, e: Event, armed: Option<int>, now: int)
    requires LawfulLog(events, armed, now)
    requires e.RollbackCalled? ==> FileRemoved !in events && armed.Some? && armed.value <= e.at <= now
    ensures LawfulLog(events + [e], armed, now)
  {
  }

  lemma LogAges(events: seq<Event>, armed: Option<int>, now: int, armed': Option<int>, now': int)
    requires LawfulLog(events, armed, now) && now <= now' && (armed' == armed || armed.None?)
    ensures LawfulLog(events, armed', now')
  {
  }

  lemma LawfulGrows(s: State, s': State, e: Option<Event>)
    requires Lawful(s) && LogGrows(s, s', e)
    requires IsCall(e) ==> !s.removed && s.armed.Some? && s.armed.value <= e.value.at <= s.now
    ensures Lawful(s')
  {
    if e.Some? {
      CallsAppend(s.events, e.value);
      LogAppend(s.events, e.value, s.armed, s.now);
    }
    LogAges(s'.events, s.armed, s.now, s'.armed, s'.now);
  }

  lemma LawfulStep(s: State, a: Action)
    requires Enabled(s, a) && Invariant(s)
    ensures Lawful(Next(s, a))
  {
    StepLogs(s, a);
    if IsCall(Logged(s, a)) {
      CallIsDue(s, a);
    }
    LawfulGrows(s, Next(s, a), Logged(s, a));
  }

  lemma InvariantStep(s: State, a: Action)
    requires Enabled(s, a) && Invariant(s)
    ensures Invariant(Next(s, a))
  {
    LawfulStep(s, a);
    if OfProcess(a) {
      ProcessStep(s, a);
      ProcessFollows(s, a);
    } else if OfJob(a) {
      JobStep(s, a);
      ProcessFollows(s, a);
    } else if OfStartup(a) {
      StartupStep(s, a);
      StartupFollows(s, a);
    } else if OfWriting(a) {
      WritingStep(s, a);
      StartupFollows(s, a);
    } else {
      SwitchStep(s, a);
      SwitchFollows(s, a);
    }
  }

  lemma {:induction false} InvariantOverRun(s: State, acts: seq<Action>, s': State)
    requires Invariant(s) && Run(s, acts, s')
    ensures Invariant(s')
    decreases |acts|
  {
    if acts != [] {
      InvariantStep(s, acts[0]);
      InvariantOverRun(Next(s, acts[0]), acts[1..], s');
    }
  }

  // ---------------------------------------------------------- over whole runs

  /** However often the agent crashes and restarts: the change is never applied without
      the switch having been armed, and as long as no probe has succeeded and no rollback
      was called, the record is on disk; it is readable with the armed deadline except
      while it is being rewritten or after that rewriting was interrupted. */
  lemma WriteAhead(now: int, acts: seq<Action>, s: State)
    requires Run(Start(now), acts, s)
    ensures s.applied ==> s.armed.Some?
    ensures Undecided(s) ==> !s.disk.Absent?
    ensures Undecided(s) ==> (s.disk == Record(s.armed.value) <==> !s.lost && !s.startup.Rewriting?)
    ensures s.armed.Some? && s.disk.Absent? && !s.probed ==> Calls(s.events) > 0
  {
    InvariantAtStart(now);
    InvariantOverRun(Start(now), acts, s);
  }

  /** The deadline in the record is the one the job armed, between 10 and 300 seconds
      after its start; no rollback is called before it, none after the file is removed,
      and there is at most one more call than there were crashes between a call and the
      removal. */
  lemma DeadlineAndCalls(now: int, acts: seq<Action>, s: State)
    requires Run(Start(now), acts, s)
    ensures s.armed.Some? ==> s.startedAt + 10 <= s.armed.value <= s.startedAt + 300
    ensures s.disk.Record? ==> s.armed == Some(s.disk.deadline)
    ensures forall i :: 0 <= i < |s.events| && s.events[i].RollbackCalled? ==> s.armed.Some? && s.events[i].at >= s.armed.value
    ensures forall i, j :: 0 <= i < j < |s.events| ==> !(s.events[i].FileRemoved? && s.events[j].RollbackCalled?)
    ensures s.midCrashes <= Calls(s.events) <= s.midCrashes + 1
    ensures Calls(s.events) == s.midCrashes + 1 ==> InCall(s) || FileRemoved in s.events
  {
    InvariantAtStart(now);
    InvariantOverRun(Start(now), acts, s);
  }

  /** A running agent that has read the record keeps a live switch until a probe
      succeeds or the rollback is called, unless reading or rewriting the record failed. */
  lemma SwitchStaysLive(now: int, acts: seq<Action>, s: State)
    requires Run(Start(now), acts, s)
    requires s.up && s.startup.Ready? && Undecided(s)
    ensures Live(s.switch) <==> !s.startup.gaveUp
    ensures s.switch.Selecting? && s.now >= s.armed.value ==> Enabled(s, ExpiryFires)
  {
    InvariantAtStart(now);
    InvariantOverRun(Start(now), acts, s);
  }

  /** One step of a deadline lasting for ever: the armed deadline never changes again. */
  lemma {:induction false} DeadlineNeverMoves(s: State, acts: seq<Action>, s': State)
    requires Invariant(s) && s.armed.Some? && Run(s, acts, s')
    ensures s'.armed == s.armed
    decreases |acts|
  {
    if acts != [] {
      InvariantStep(s, acts[0]);
      ArmedStays(s, acts[0]);
      DeadlineNeverMoves(Next(s, acts[0]), acts[1..], s');
    }
  }

  ghost predicate Reachable(from: State, s: State) {
    exists acts :: Run(from, acts, s)
  }

  lemma {:induction false} RunAppend(from: State, acts: seq<Action>, s: State, a: Action)
    requires Run(from, acts, s) && Enabled(s, a)
    ensures Run(from, acts + [a], Next(s, a))
    decreases |acts|
  {
    if acts == [] {
      assert (acts + [a])[1..] == [];
    } else {
      RunAppend(Next(from, acts[0]), acts[1..], s, a);
      assert (acts + [a])[1..] == acts[1..] + [a];
    }
  }

  lemma Extend(from: State, s: State, a: Action) returns (s': State)
    requires Reachable(from, s) && Enabled(s, a)
    ensures s' == Next(s, a) && Reachable(from, s')
  {
    var acts :| Run(from, acts, s);
    RunAppend(from, acts, s, a);
    s' := Next(s, a);
  }

  lemma ReachableSelf(s: State)
    ensures Reachable(s, s)
  {
    assert Run(s, [], s);
  }

  /** A restart after the deadline. */
  lemma RestartLate(from: State, s: State) returns (s': State)
    requires Reachable(from, s) && !s.up && s.startup.Reading? && s.disk.Record?
    ensures Reachable(from, s') && s'.events == s.events + [RollbackCalled(s'.now)] && s'.probed == s.probed
  {
    s' := AwakeLate(from, s);
    ReadingLateIs(s');
    s' := Extend(from, s', ReadRecord);
  }

  lemma AwakeLate(from: State, s: State) returns (s': State)
    requires Reachable(from, s) && !s.up && s.startup.Reading? && s.disk.Record?
    ensures Reachable(from, s') && Enabled(s', ReadRecord) && IsLate(s')
    ensures s'.events == s.events && s'.probed == s.probed
  {
    var d := s.disk.deadline;
    s' := Extend(from, s, Restart);
    assert s' == s.(up := true);
    s' := Extend(from, s', Tick(if d < s.now then 0 else d + 1 - s.now));
  }

  /** While the record is readable a rollback can still be brought about without any
      probe: restarting after the deadline is enough. */
  lemma RollbackStaysPossible(now: int, acts: seq<Action>, s: State) returns (s': State)
    requires Run(Start(now), acts, s)
    requires Undecided(s) && s.disk.Record?
    ensures Reachable(s, s') && Calls(s'.events) == 1 && !s'.probed
  {
    InvariantAtStart(now);
    InvariantOverRun(Start(now), acts, s);
    ReachableSelf(s);
    s' := s;
    if s.up {
      s' := Extend(s, s', Crash);
    }
    s' := RestartLate(s, s');
    CallsAppend(s.events, RollbackCalled(s'.now));
  }

  /** A crash or an error inside the rewriting of the record at restart is final: whatever
      happens afterwards, and however late it gets, the rollback is not called again. */
  lemma {:induction false} InterruptedRewriteIsFinal(s: State, acts: seq<Action>, s': State)
    requires Invariant(s) && s.lost && Run(s, acts, s')
    ensures s'.lost && Calls(s'.events) == Calls(s.events)
    decreases |acts|
  {
    if acts != [] {
      InvariantStep(s, acts[0]);
      InterruptedRewriteIsFinal(Next(s, acts[0]), acts[1..], s');
    }
  }

  /** A change under way: the switch is armed and about to probe for the first time. */
  lemma ArmedRun() returns (s: State)
    ensures Reachable(Start(0), s)
    ensures s == Start(0).(up := true, startup := Ready(false), job := Armed, disk := Record(30), switch := FirstProbe(30),
                           armed := Some(30))
  {
    s := Start(0);
    ReachableSelf(s);
    s := Extend(Start(0), s, Restart);
    s := Extend(Start(0), s, ReadRecord);
    s := Extend(Start(0), s, StartJob(30));
    s := Extend(Start(0), s, Truncate);
    s := Extend(Start(0), s, WriteDone);
  }

  // ------------------------------------------------- what an applied change is worth

  /** The change is on record, or about to be again, or was followed by a successful
      probe or by a call of the rollback. */
  predicate Covered(s: State) {
    (s.armed.Some? && s.disk == Record(s.armed.value)) || s.startup.Rewriting? || s.answered
  }

  /** In every run an applied change is covered exactly unless a decision older than the
      change has removed the record, or a rewriting of the record was interrupted before
      the change was answered.  The older decision does no harm when a crash keeps it from
      removing the record. */
  lemma CoveredExactly(now: int, acts: seq<Action>, s: State)
    requires Run(Start(now), acts, s) && s.applied
    ensures Covered(s) <==> !(EarlyStands(s) && s.removed) && (s.lost ==> s.answered)
  {
    InvariantAtStart(now);
    InvariantOverRun(Start(now), acts, s);
  }

  predicate JobUntouched(s: State, s': State) {
    s'.applied == s.applied && s'.job == s.job && s'.early == s.early
  }

  lemma ProcessLeavesJob(s: State, a: Action)
    requires Enabled(s, a) && OfProcess(a) && s.job.Over?
    ensures JobUntouched(s, Next(s, a))
  {
  }

  lemma StartupLeavesJob(s: State, a: Action)
    requires Enabled(s, a) && OfStartup(a)
    ensures JobUntouched(s, Next(s, a))
  {
    if IsLate(s) && a.ReadRecord? {
      assert Next(s, a).startup.Expired?;
    }
  }

  lemma WritingLeavesJob(s: State, a: Action)
    requires Enabled(s, a) && OfWriting(a) && s.job.Over?
    ensures JobUntouched(s, Next(s, a))
  {
  }

  lemma ExpiryLeavesJob(s: State, a: Action)
    requires Enabled(s, a) && a.ExpiryFires?
    ensures JobUntouched(s, Next(s, a))
  {
    assert Next(s, a).calls == s.calls + 1;
  }

  lemma SwitchLeavesJob(s: State, a: Action)
    requires Enabled(s, a) && OfSwitch(a)
    ensures JobUntouched(s, Next(s, a))
  {
    if a.ExpiryFires? {
      ExpiryLeavesJob(s, a);
    }
  }

  lemma AppliedStaysStep(s: State, a: Action)
    requires Enabled(s, a) && s.job.Over?
    ensures JobUntouched(s, Next(s, a))
  {
    if OfProcess(a) {
      ProcessLeavesJob(s, a);
    } else if OfStartup(a) {
      StartupLeavesJob(s, a);
    } else if OfWriting(a) {
      WritingLeavesJob(s, a);
    } else {
      SwitchLeavesJob(s, a);
    }
  }

  lemma {:induction false} AppliedStays(s: State, acts: seq<Action>, s': State)
    requires s.applied && s.job.Over? && Run(s, acts, s')
    ensures s'.applied && s'.early == s.early
    decreases |acts|
  {
    if acts != [] {
      AppliedStaysStep(s, acts[0]);
      AppliedStays(Next(s, acts[0]), acts[1..], s');
    }
  }

  /** Covered in every future without an interrupted rewriting. */
  ghost predicate StaysCovered(s: State) {
    forall acts, s' :: Run(s, acts, s') && !s'.lost ==> Covered(s')
  }

  lemma DecidedIsUncovered(s: State, s': State)
    requires Invariant(s) && Enabled(s, ApplyChange(true)) && Decided(s) && s' == Next(s, ApplyChange(true))
    ensures !StaysCovered(s')
  {
    InvariantStep(s, ApplyChange(true));
    assert EarlyStands(s');
    ReachableSelf(s');
    if s'.removed {
      assert Run(s', [], s') && !s'.lost && !Covered(s');
    } else {
      var s'' := Extend(s', s', RemoveFile);
      var acts :| Run(s', acts, s'');
      assert !s''.lost && !Covered(s'');
    }
  }

  /** At the moment of the change: it stays covered, whatever happens short of an
      interrupted rewriting, exactly when no probe has succeeded and no rollback was
      called before. */
  lemma StaysCoveredExactly(now: int, acts: seq<Action>, s: State)
    requires Run(Start(now), acts, s) && Enabled(s, ApplyChange(true))
    ensures StaysCovered(Next(s, ApplyChange(true))) <==> !Decided(s)
  {
    InvariantAtStart(now);
    InvariantOverRun(Start(now), acts, s);
    var s' := Next(s, ApplyChange(true));
    if Decided(s) {
      DecidedIsUncovered(s, s');
    } else {
      InvariantStep(s, ApplyChange(true));
      forall more, end | Run(s', more, end) && !end.lost ensures Covered(end) {
        InvariantOverRun(s', more, end);
        AppliedStays(s', more, end);
      }
    }
  }

  /** All three ways to lose the cover happen.  First: a probe that succeeds before the
      change is applied disarms the switch, and the change then stands without a record. */
  lemma EarlyProbeDisarms() returns (s: State)
    ensures Reachable(Start(0), s)
    ensures s.applied && s.disk.Absent? && s.calls == 0 && !Covered(s)
  {
    s := ArmedRun();
    s := Extend(Start(0), s, ProbeReturns(true));
    s := Extend(Start(0), s, RemoveFile);
    s := Extend(Start(0), s, ApplyChange(true));
  }

  /** Second: a change that is applied only after the deadline comes after its rollback. */
  lemma LateChangeStands() returns (s: State)
    ensures Reachable(Start(0), s)
    ensures s.applied && s.disk.Absent? && !s.probed && !s.lost && s.calls == 1 && !Covered(s)
  {
    s := ArmedRun();
    s := Extend(Start(0), s, ProbeReturns(false));
    s := Extend(Start(0), s, Tick(30));
    s := Extend(Start(0), s, ExpiryFires);
    s := Extend(Start(0), s, RemoveFile);
    s := Extend(Start(0), s, ApplyChange(true));
  }

  /** Third: a crash while a restart rewrites the record leaves an applied change that
      is never rolled back although no probe ever succeeded. */
  lemma InterruptedRewriteHappens() returns (s: State)
    ensures Reachable(Start(0), s)
    ensures s.applied && s.lost && !s.probed && s.calls == 0 && !Covered(s)
  {
    s := AppliedThenCrashed();
    s := Extend(Start(0), s, Restart);
    s := Extend(Start(0), s, ReadRecord);
    s := Extend(Start(0), s, Truncate);
    s := Extend(Start(0), s, Crash);
  }

  lemma AppliedThenCrashed() returns (s: State)
    ensures Reachable(Start(0), s)
    ensures s == Start(0).(disk := Record(30), armed := Some(30), applied := true, job := Over)
  {
    s := ArmedRun();
    s := Extend(Start(0), s, ProbeReturns(false));
    s := Extend(Start(0), s, ApplyChange(true));
    s := Extend(Start(0), s, Crash);
  }
}
