/**
 What the dead man's switch still does as long as it is live: every tick of its ticker
 probes, an answer disarms it, and without one the deadline rolls back.
 */
module Disarming {
  import opened Text
  import opened DeadMan

  /** One more step of a run. */
  lemma Then(from: State, acts: seq<Action>, s: State, a: Action) returns (acts': seq<Action>, s': State)
    requires Run(from, acts, s) && Enabled(s, a)
    ensures acts' == acts + [a] && s' == Next(s, a) && Run(from, acts', s')
  {
    RunAppend(from, acts, s, a);
    acts', s' := acts + [a], Next(s, a);
  }

  /** The record is gone, a probe has succeeded, and the rollback was not called on the way. */
  predicate Disarmed(s: State, s': State) {
    s'.probed && s'.disk.Absent? && !Live(s'.switch) && Calls(s'.events) == Calls(s.events)
  }

  lemma ReachableHolds(now: int, acts: seq<Action>, s: State)
    requires Run(Start(now), acts, s)
    ensures Invariant(s)
  {
    InvariantAtStart(now);
    InvariantOverRun(Start(now), acts, s);
  }

  /** From an answered probe to the removal. */
  lemma AnswerDisarms(s: State, acts: seq<Action>, t: State) returns (more: seq<Action>, s': State)
    requires Run(s, acts, t) && Enabled(t, ProbeReturns(true)) && Invariant(s) && t.events == s.events
    ensures more == acts + [ProbeReturns(true)] + [RemoveFile]
    ensures Run(s, more, s') && Disarmed(s, s')
  {
    more, s' := Then(s, acts, t, ProbeReturns(true));
    assert Enabled(s', RemoveFile) && s'.events == s.events;
    CallsAppend(s.events, FileRemoved);
    more, s' := Then(s, more, s', RemoveFile);
  }

  /** Whenever the switch is live, whatever happened before: a server that answers the next
      probe disarms it, with no crash, no restart and no time but the ticker's, and no
      rollback is called. */
  lemma DisarmStaysPossible(now: int, acts: seq<Action>, s: State) returns (more: seq<Action>, s': State)
    requires Run(Start(now), acts, s) && Live(s.switch)
    ensures more == (if s.switch.Selecting? then [TickerFires] else []) + [ProbeReturns(true)] + [RemoveFile]
    ensures Run(s, more, s') && Disarmed(s, s')
  {
    ReachableHolds(now, acts, s);
    assert Run(s, [], s);
    var ticked, t := [], s;
    if s.switch.Selecting? {
      ticked, t := Then(s, ticked, t, TickerFires);
    }
    more, s' := AnswerDisarms(s, ticked, t);
  }

  /** Each tick of a selecting switch probes, and the answer decides: with a good one the
      record goes, with any other everything is as before the tick. */
  lemma TickProbes(now: int, acts: seq<Action>, s: State) returns (t: State)
    requires Run(Start(now), acts, s) && s.switch.Selecting?
    ensures Run(s, [TickerFires, ProbeReturns(false)], s)
    ensures Run(s, [TickerFires, ProbeReturns(true), RemoveFile], t) && Disarmed(s, t)
  {
    ReachableHolds(now, acts, s);
    assert Run(s, [], s);
    var ticked, p := Then(s, [], s, TickerFires);
    var failed, f := Then(s, ticked, p, ProbeReturns(false));
    assert f == s && failed == [TickerFires, ProbeReturns(false)];
    var more: seq<Action>;
    more, t := DisarmStaysPossible(now, acts, s);
    assert more == [TickerFires, ProbeReturns(true), RemoveFile];
  }

  /** Selecting at or after the deadline. */
  predicate IsDue(s: State) {
    s.up && s.switch.Selecting? && s.now >= s.switch.deadline
  }

  lemma ProbeFails(s: State)
    requires s.up && Live(s.switch) && !s.switch.Selecting?
    ensures Enabled(s, ProbeReturns(false))
    ensures Next(s, ProbeReturns(false)) == s.(switch := Selecting(s.switch.deadline))
  {
  }

  lemma TimePasses(s: State, late: nat)
    ensures Next(s, Tick(late)) == s.(now := s.now + late)
  {
  }

  lemma SelectsAgain(s: State) returns (more: seq<Action>, t: State)
    requires s.up && Live(s.switch)
    ensures more == if s.switch.Selecting? then [] else [ProbeReturns(false)]
    ensures Run(s, more, t) && t == s.(switch := Selecting(s.switch.deadline))
  {
    assert Run(s, [], s);
    more, t := [], s;
    if !s.switch.Selecting? {
      ProbeFails(s);
      more, t := Then(s, more, t, ProbeReturns(false));
    }
  }

  /** Waiting for the deadline, with every probe failing. */
  lemma WaitsUntilDue(s: State, late: nat) returns (more: seq<Action>, t: State)
    requires s.up && Live(s.switch) && s.now + late >= s.switch.deadline
    ensures more == (if s.switch.Selecting? then [] else [ProbeReturns(false)]) + [Tick(late)]
    ensures Run(s, more, t) && t == s.(switch := Selecting(s.switch.deadline), now := s.now + late) && IsDue(t)
  {
    more, t := SelectsAgain(s);
    TimePasses(t, late);
    more, t := Then(s, more, t, Tick(late));
  }

  lemma DueRollsBack(s: State)
    requires IsDue(s)
    ensures Enabled(s, ExpiryFires) && Next(s, ExpiryFires) == Called(s).(switch := RolledBack)
    ensures Enabled(Called(s).(switch := RolledBack), RemoveFile)
    ensures Next(Called(s).(switch := RolledBack), RemoveFile) == Removed(Called(s)).(switch := Finished)
  {
  }

  /** And without an answer by the deadline the same switch rolls back once more and removes
      the record, without a crash or a restart. */
  lemma ExpiryRollsBack(now: int, acts: seq<Action>, s: State, late: nat) returns (more: seq<Action>, s': State)
    requires Run(Start(now), acts, s) && Live(s.switch) && s.armed.Some? && s.now + late >= s.armed.value
    ensures more == (if s.switch.Selecting? then [] else [ProbeReturns(false)]) + [Tick(late)] + [ExpiryFires] + [RemoveFile]
    ensures Run(s, more, s') && s'.disk.Absent? && !Live(s'.switch) && s'.probed == s.probed
    ensures s'.events == s.events + [RollbackCalled(s.now + late)] + [FileRemoved]
  {
    ReachableHolds(now, acts, s);
    more, s' := WaitsUntilDue(s, late);
    DueRollsBack(s');
    more, s' := Then(s, more, s', ExpiryFires);
    more, s' := Then(s, more, s', RemoveFile);
  }

  // ------------------------------------------------------------- the deadline asked for

  /** So many seconds after the job started when the job asked for `asked` of them. */
  predicate AsAsked(asked: int, seconds: int) {
    && (10 <= asked <= 300 ==> seconds == asked)
    && (asked < 10 ==> seconds == 10)
    && (asked > 300 ==> seconds == 300)
  }

  /** What a job that was asked for so many seconds has made of them. */
  predicate HoldsAsked(s: State, asked: Option<int>) {
    && (s.job.Arming? || s.job.Writing? ==> asked.Some? && AsAsked(asked.value, s.job.deadline - s.startedAt))
    && (s.armed.Some? ==> asked.Some? && AsAsked(asked.value, s.armed.value - s.startedAt))
  }

  lemma HoldsAskedStep(s: State, a: Action, asked: Option<int>)
    requires Enabled(s, a) && Invariant(s) && HoldsAsked(s, asked)
    ensures HoldsAsked(Next(s, a), if a.StartJob? then Some(a.timerSeconds) else asked)
  {
    if a.StartJob? || a.Truncate? || a.WriteDone? || a.OpenFails? || a.WriteFails? {
      AskedByJob(s, a, asked);
    } else if OfSwitch(a) {
      AskedBySwitch(s, a);
    } else if a.ReadRecord? {
      AskedByReading(s);
    } else {
      AskedByOthers(s, a);
    }
  }

  predicate LeavesDeadlines(s: State, t: State) {
    t.startedAt == s.startedAt && t.armed == s.armed && (t.job == s.job || t.job.Over? || t.job.NotStarted?)
  }

  lemma AskedBySwitch(s: State, a: Action)
    requires Enabled(s, a) && OfSwitch(a)
    ensures LeavesDeadlines(s, Next(s, a))
  {
    if a.ExpiryFires? {
      assert Next(s, a) == Called(s).(switch := RolledBack);
    } else if a.RemoveFile? {
      assert Next(s, a) == Removed(s).(switch := Finished);
    }
  }

  lemma AskedByOthers(s: State, a: Action)
    requires Enabled(s, a) && (OfProcess(a) || a.ApplyChange? || a.RemoveExpired? || a.ReadFails?)
    ensures LeavesDeadlines(s, Next(s, a))
  {
  }

  lemma AskedByReading(s: State)
    requires Enabled(s, ReadRecord)
    ensures LeavesDeadlines(s, Next(s, ReadRecord))
  {
    if IsLate(s) {
      ReadingLateIs(s);
    } else {
      ReadingOtherwiseIs(s);
    }
  }

  lemma AskedByJob(s: State, a: Action, asked: Option<int>)
    requires Enabled(s, a) && Invariant(s) && HoldsAsked(s, asked)
    requires a.StartJob? || a.Truncate? || a.WriteDone? || a.OpenFails? || a.WriteFails?
    ensures HoldsAsked(Next(s, a), if a.StartJob? then Some(a.timerSeconds) else asked)
  {
  }

  lemma {:induction false} HoldsAskedOverRun(s: State, acts: seq<Action>, s': State, asked: Option<int>)
    returns (asked': Option<int>)
    requires Run(s, acts, s') && Invariant(s) && HoldsAsked(s, asked)
    ensures HoldsAsked(s', asked')
    ensures asked' == asked || (asked'.Some? && StartJob(asked'.value) in acts)
    decreases |acts|
  {
    asked' := asked;
    if acts != [] {
      InvariantStep(s, acts[0]);
      HoldsAskedStep(s, acts[0], asked);
      var next := if acts[0].StartJob? then Some(acts[0].timerSeconds) else asked;
      asked' := HoldsAskedOverRun(Next(s, acts[0]), acts[1..], s', next);
    }
  }

  /** In every run the armed deadline is as far from the start of the job as the job asked
      for, within 10 and 300 seconds, however often it was read back after a crash. */
  lemma DeadlineIsAsAsked(now: int, acts: seq<Action>, s: State)
    requires Run(Start(now), acts, s) && s.armed.Some?
    ensures exists asked :: StartJob(asked) in acts && AsAsked(asked, s.armed.value - s.startedAt)
  {
    InvariantAtStart(now);
    var asked := HoldsAskedOverRun(Start(now), acts, s, None);
  }

  lemma JobTruncates(s: State)
    requires s.up && s.startup.Ready? && s.job.Arming?
    ensures Enabled(s, Truncate) && Next(s, Truncate) == s.(job := Writing(s.job.deadline), disk := Torn)
  {
  }

  lemma JobRecords(s: State)
    requires s.up && s.startup.Ready? && s.job.Writing?
    ensures Enabled(s, WriteDone)
    ensures var d := s.job.deadline;
            Next(s, WriteDone) == s.(job := Armed, disk := Record(d), switch := FirstProbe(d), armed := Some(d))
  {
  }

  lemma JobWrites(s: State, timerSeconds: int) returns (s': State)
    requires s.up && s.startup.Ready? && s.job.NotStarted?
    ensures Run(s, [StartJob(timerSeconds), Truncate, WriteDone], s') && Enabled(s', ApplyChange(true))
    ensures s'.armed.Some? && s'.disk == Record(s'.armed.value) && s'.switch == FirstProbe(s'.armed.value)
    ensures AsAsked(timerSeconds, s'.armed.value - s.now)
  {
    assert Run(s, [], s);
    var more: seq<Action>;
    more, s' := Then(s, [], s, StartJob(timerSeconds));
    JobTruncates(s');
    more, s' := Then(s, more, s', Truncate);
    JobRecords(s');
    more, s' := Then(s, more, s', WriteDone);
    assert more == [StartJob(timerSeconds), Truncate, WriteDone];
  }

  /** And a job that starts can have its record, its switch and then its change. */
  lemma JobCanArm(s: State, timerSeconds: int) returns (s': State)
    requires s.up && s.startup.Ready? && s.job.NotStarted?
    ensures Run(s, [StartJob(timerSeconds), Truncate, WriteDone, ApplyChange(true)], s')
    ensures s'.applied && s'.armed.Some? && s'.disk == Record(s'.armed.value) && s'.switch == FirstProbe(s'.armed.value)
    ensures AsAsked(timerSeconds, s'.armed.value - s.now)
  {
    var t := JobWrites(s, timerSeconds);
    var more: seq<Action>;
    more, s' := Then(s, [StartJob(timerSeconds), Truncate, WriteDone], t, ApplyChange(true));
    assert more == [StartJob(timerSeconds), Truncate, WriteDone, ApplyChange(true)];
  }

  /** A restart before the deadline that can rewrite the record resumes the switch with the
      deadline on disk. */
  lemma RestartResumes(now: int, acts: seq<Action>, s: State) returns (s': State)
    requires Run(Start(now), acts, s) && !s.up && s.disk.Record? && s.now <= s.disk.deadline
    ensures Run(s, [Restart, ReadRecord, Truncate, WriteDone], s')
    ensures s'.switch == FirstProbe(s.disk.deadline) && s'.disk == s.disk && s'.events == s.events
  {
    ReachableHolds(now, acts, s);
    assert Run(s, [], s);
    var more: seq<Action>;
    more, s' := Then(s, [], s, Restart);
    ReadingOtherwiseIs(s');
    more, s' := Then(s, more, s', ReadRecord);
    assert s'.startup == Rearming(s.disk.deadline) && s'.events == s.events && s'.up;
    more, s' := Then(s, more, s', Truncate);
    assert s'.startup == Rewriting(s.disk.deadline) && s'.events == s.events && s'.up;
    more, s' := Then(s, more, s', WriteDone);
    assert more == [Restart, ReadRecord, Truncate, WriteDone];
  }
}
