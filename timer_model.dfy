/**
 * The pure half of the study timer: `TimerState`, an immutable snapshot,
 * and every transition as a function from one snapshot to the next (the
 * `copy(...)` expressions of the view model).
 */
module TimerModel {
  import opened Wrappers
  import opened Text
  import opened SessionRecord
  import Json
  import History

  const MIN_STUDY_MINUTES: int := 1
  const MAX_STUDY_MINUTES: int := 120
  const MIN_REWARD_MINUTES: int := 1
  const MAX_REWARD_MINUTES: int := 60
  const SECONDS_PER_MINUTE: int := 60

  datatype Phase = Idle | Study | Reward

  /** The four user settings, editable only while the timer is idle. */
  datatype Configuration = Configuration(
    studyMinutes: int,
    rewardMinutes: int,
    subject: string,
    useSingleSubject: bool)

  /** Kotlin's `/` on Int, which rounds toward zero. */
  function TruncDiv(a: int, b: int): int
    requires b > 0
  {
    if a >= 0 then a / b else -((-a) / b)
  }

  /** Kotlin's `%` on Int, whose sign follows the dividend. */
  function TruncRem(a: int, b: int): int
    requires b > 0
  {
    a - b * TruncDiv(a, b)
  }

  datatype TimerState = TimerState(
    studyMinutes: int,
    rewardMinutes: int,
    subject: string,
    useSingleSubject: bool,
    phase: Phase,
    remainingSeconds: int,
    isRunning: bool,
    cycleCount: int,
    totalStudySecondsCompleted: int)
  {
    /** `displayMinutes`: whole minutes left, rounded toward zero. */
    function DisplayMinutes(): (m: int)
      ensures remainingSeconds >= 0 ==> m * 60 <= remainingSeconds < (m + 1) * 60
      ensures remainingSeconds < 0 ==> (m - 1) * 60 < remainingSeconds <= m * 60
    {
      TruncDiv(remainingSeconds, SECONDS_PER_MINUTE)
    }

    /** `displaySeconds`: the seconds past the whole minutes, signed like the time left. */
    function DisplaySeconds(): (sec: int)
      ensures -60 < sec < 60
      ensures remainingSeconds >= 0 ==> sec >= 0
      ensures remainingSeconds <= 0 ==> sec <= 0
      ensures (remainingSeconds - sec) % 60 == 0
    {
      TruncRem(remainingSeconds, SECONDS_PER_MINUTE)
    }

    /** `canEditSettings`: in a committed state, exactly while Idle. */
    function CanEditSettings(): (r: bool)
      ensures r ==> phase == Idle
      ensures Consistent(this) ==> (r <==> phase == Idle)
    {
      phase == Idle && !isRunning
    }

    function Config(): Configuration {
      Configuration(studyMinutes, rewardMinutes, subject, useSingleSubject)
    }

    /** The length of one study block, in seconds. */
    function StudySeconds(): int {
      studyMinutes * SECONDS_PER_MINUTE
    }

    function RewardSeconds(): int {
      rewardMinutes * SECONDS_PER_MINUTE
    }
  }

  /** `TimerState()` with its default arguments. */
  const Initial: TimerState := TimerState(25, 5, History.DEFAULT_SUBJECT, false, Idle, 0, false, 0, 0)

  /** The study seconds counted so far in this run: the finished blocks plus the current one. */
  function ElapsedStudySeconds(s: TimerState): int {
    match s.phase
    case Idle => 0
    case Study => s.cycleCount * s.StudySeconds() - s.remainingSeconds
    case Reward => s.cycleCount * s.StudySeconds()
  }

  predicate ValidConfig(c: Configuration) {
    MIN_STUDY_MINUTES <= c.studyMinutes <= MAX_STUDY_MINUTES
    && MIN_REWARD_MINUTES <= c.rewardMinutes <= MAX_REWARD_MINUTES
    && c.subject != [] && Trim(c.subject) == c.subject
  }

  /**
   * The invariant of every state the view model commits: settings in range,
   * a non-blank trimmed subject; Idle is the fresh state; a running phase
   * always has time left, at most its full length; and the study-second
   * counter equals the number of Study ticks so far.
   */
  predicate Consistent(s: TimerState) {
    ValidConfig(s.Config())
    && (match s.phase
        case Idle =>
          s.remainingSeconds == 0 && !s.isRunning && s.cycleCount == 0
        case Study =>
          0 < s.remainingSeconds <= s.StudySeconds() && s.cycleCount >= 1
        case Reward =>
          0 < s.remainingSeconds <= s.RewardSeconds() && s.cycleCount >= 1)
    && s.totalStudySecondsCompleted == ElapsedStudySeconds(s)
  }

  // ---------------------------------------------------------------------
  // settings

  lemma DefaultSubjectTrimmed()
    ensures History.DEFAULT_SUBJECT != [] && Trim(History.DEFAULT_SUBJECT) == History.DEFAULT_SUBJECT
  {
    TrimOfTrimmedEnds(History.DEFAULT_SUBJECT);
  }

  /** `setStudyMinutes`: accepted only in [1, 120] and only while editable. */
  function SetStudyMinutes(s: TimerState, minutes: int): (r: TimerState)
    ensures MIN_STUDY_MINUTES <= minutes <= MAX_STUDY_MINUTES && s.CanEditSettings() ==>
              r == s.(studyMinutes := minutes)
    ensures !(MIN_STUDY_MINUTES <= minutes <= MAX_STUDY_MINUTES && s.CanEditSettings()) ==> r == s
  {
    if MIN_STUDY_MINUTES <= minutes <= MAX_STUDY_MINUTES then
      if s.CanEditSettings() then s.(studyMinutes := minutes) else s
    else s
  }

  /** `setRewardMinutes`: accepted only in [1, 60] and only while editable. */
  function SetRewardMinutes(s: TimerState, minutes: int): (r: TimerState)
    ensures MIN_REWARD_MINUTES <= minutes <= MAX_REWARD_MINUTES && s.CanEditSettings() ==>
              r == s.(rewardMinutes := minutes)
    ensures !(MIN_REWARD_MINUTES <= minutes <= MAX_REWARD_MINUTES && s.CanEditSettings()) ==> r == s
  {
    if MIN_REWARD_MINUTES <= minutes <= MAX_REWARD_MINUTES then
      if s.CanEditSettings() then s.(rewardMinutes := minutes) else s
    else s
  }

  /** `subject.trim().ifEmpty { "General" }`. */
  function NormalizedSubject(subject: string): (r: string)
    ensures r != [] && Trim(r) == r
    ensures Trim(subject) != [] ==> r == Trim(subject)
    ensures Trim(subject) == [] ==> r == History.DEFAULT_SUBJECT
  {
    TrimIdempotent(subject);
    DefaultSubjectTrimmed();
    var trimmed := Trim(subject);
    if trimmed == [] then History.DEFAULT_SUBJECT else trimmed
  }

  /**
   * `setSubject`: while editable, only the subject changes, to the trimmed
   * text or "General" when that is blank; while locked nothing changes.
   */
  function SetSubject(s: TimerState, subject: string): (r: TimerState)
    ensures s.CanEditSettings() ==> r == s.(subject := r.subject)
    ensures s.CanEditSettings() ==> r.subject != [] && Trim(r.subject) == r.subject
    ensures s.CanEditSettings() && Trim(subject) != [] ==> r.subject == Trim(subject)
    ensures s.CanEditSettings() && Trim(subject) == [] ==> r.subject == History.DEFAULT_SUBJECT
    ensures !s.CanEditSettings() ==> r == s
  {
    var trimmed := NormalizedSubject(subject);
    if s.CanEditSettings() then s.(subject := trimmed) else s
  }

  /** `setUseSingleSubject`: turning it on also resets the subject to "General". */
  function SetUseSingleSubject(s: TimerState, useSingle: bool): (r: TimerState)
    ensures s.CanEditSettings() && useSingle ==>
              r == s.(useSingleSubject := true, subject := History.DEFAULT_SUBJECT)
    ensures s.CanEditSettings() && !useSingle ==> r == s.(useSingleSubject := false)
    ensures !s.CanEditSettings() ==> r == s
  {
    if s.CanEditSettings() then
      s.(useSingleSubject := useSingle, subject := if useSingle then History.DEFAULT_SUBJECT else s.subject)
    else s
  }

  // ---------------------------------------------------------------------
  // start, pause, reset

  /**
   * `start`: from Idle a new study block begins with its full length and the
   * cycle count goes up by one; otherwise only `isRunning` is set.
   */
  function Start(s: TimerState): (r: TimerState)
    ensures r.isRunning && r.Config() == s.Config()
    ensures r.totalStudySecondsCompleted == s.totalStudySecondsCompleted
    ensures s.phase == Idle ==>
              r.phase == Study && r.remainingSeconds == s.studyMinutes * SECONDS_PER_MINUTE
              && r.cycleCount == s.cycleCount + 1
    ensures s.phase != Idle ==> r == s.(isRunning := true)
  {
    if s.phase == Idle then
      s.(phase := Study, remainingSeconds := s.studyMinutes * SECONDS_PER_MINUTE,
         isRunning := true, cycleCount := s.cycleCount + 1)
    else
      s.(isRunning := true)
  }

  /** `pause`: only `isRunning` changes. */
  function Pause(s: TimerState): (r: TimerState)
    ensures !r.isRunning
    ensures r.phase == s.phase && r.remainingSeconds == s.remainingSeconds
    ensures r.cycleCount == s.cycleCount && r.Config() == s.Config()
    ensures r.totalStudySecondsCompleted == s.totalStudySecondsCompleted
  {
    s.(isRunning := false)
  }

  /** `reset`: a fresh `TimerState` that keeps the four settings. */
  function Reset(s: TimerState): (r: TimerState)
    ensures r.Config() == s.Config()
    ensures r.phase == Idle && r.remainingSeconds == 0 && !r.isRunning
    ensures r.cycleCount == 0 && r.totalStudySecondsCompleted == 0
  {
    TimerState(s.studyMinutes, s.rewardMinutes, s.subject, s.useSingleSubject, Idle, 0, false, 0, 0)
  }

  // ---------------------------------------------------------------------
  // the one-second tick and the phase switch

  /**
   * What one step produces: the state to commit, the phase whose completion
   * is reported to `onPhaseComplete`, and the record handed to the history.
   */
  datatype Step = Step(next: TimerState, completed: Option<Phase>, record: Option<Record>)

  /** The record of a study block just completed at time `now`. */
  function CompletedBlock(s: TimerState, now: int): (r: Record)
    ensures r.id == r.completedAt == now && r.subject == s.subject
    ensures r.totalStudySeconds == s.StudySeconds()
    ensures r.studyMinutes == s.studyMinutes && r.rewardMinutes == s.rewardMinutes
  {
    Record(now, s.subject, s.studyMinutes, s.rewardMinutes,
           s.studyMinutes * SECONDS_PER_MINUTE, now)
  }

  /**
   * `switchPhase`: Study is followed by Reward and logs one record; Reward
   * is followed by a new study block; every non-Idle completion is reported.
   */
  function SwitchPhase(current: TimerState, now: int): (r: Step)
    ensures r.completed == (if current.phase == Idle then None else Some(current.phase))
    ensures r.record == (if current.phase == Study then Some(CompletedBlock(current, now)) else None)
    ensures r.next.Config() == current.Config()
    ensures current.phase == Study ==>
              r.next == current.(phase := Reward, remainingSeconds := current.RewardSeconds(),
                                 totalStudySecondsCompleted := current.totalStudySecondsCompleted + 1)
    ensures current.phase == Reward ==>
              r.next == current.(phase := Study, remainingSeconds := current.StudySeconds(),
                                 cycleCount := current.cycleCount + 1)
    ensures current.phase == Idle ==> r.next == current
  {
    match current.phase
    case Study =>
      Step(current.(phase := Reward,
                    remainingSeconds := current.rewardMinutes * SECONDS_PER_MINUTE,
                    totalStudySecondsCompleted := current.totalStudySecondsCompleted + 1),
           Some(Study), Some(CompletedBlock(current, now)))
    case Reward =>
      Step(current.(phase := Study,
                    remainingSeconds := current.studyMinutes * SECONDS_PER_MINUTE,
                    cycleCount := current.cycleCount + 1),
           Some(Reward), None)
    case Idle =>
      Step(current, None, None)
  }

  /** The body of the ticker's `_state.update { ... }`. */
  function Tick(s: TimerState, now: int): (r: Step)
    ensures !s.isRunning ==> r == Step(s, None, None)
    ensures s.isRunning && s.remainingSeconds - 1 > 0 ==>
              r.completed.None? && r.record.None?
              && r.next == s.(remainingSeconds := s.remainingSeconds - 1,
                              totalStudySecondsCompleted := s.totalStudySecondsCompleted
                                + (if s.phase == Study then 1 else 0))
    ensures s.isRunning && s.remainingSeconds - 1 <= 0 ==> r == SwitchPhase(s, now)
    ensures r.next.Config() == s.Config()
  {
    if !s.isRunning then Step(s, None, None)
    else
      var next := s.remainingSeconds - 1;
      if next <= 0 then SwitchPhase(s, now)
      else
        Step(s.(remainingSeconds := next,
                totalStudySecondsCompleted :=
                  if s.phase == Study then s.totalStudySecondsCompleted + 1
                  else s.totalStudySecondsCompleted),
             None, None)
  }

  // ---------------------------------------------------------------------
  // properties of single transitions

  lemma InitialConsistent()
    ensures Consistent(Initial)
  {
    DefaultSubjectTrimmed();
  }

  /** `setStudyMinutes` keeps the invariant. */
  lemma SetStudyMinutesKeepsConsistent(s: TimerState, minutes: int)
    requires Consistent(s)
    ensures Consistent(SetStudyMinutes(s, minutes))
  {
    if s.CanEditSettings() {
      IdleEditKeepsConsistent(s, s.Config().(studyMinutes := SetStudyMinutes(s, minutes).studyMinutes));
    }
  }

  /** `setRewardMinutes` keeps the invariant. */
  lemma SetRewardMinutesKeepsConsistent(s: TimerState, minutes: int)
    requires Consistent(s)
    ensures Consistent(SetRewardMinutes(s, minutes))
  {
    if s.CanEditSettings() {
      IdleEditKeepsConsistent(s, s.Config().(rewardMinutes := SetRewardMinutes(s, minutes).rewardMinutes));
    }
  }

  /** `setSubject` keeps the invariant: the stored subject is never blank. */
  lemma SetSubjectKeepsConsistent(s: TimerState, subject: string)
    requires Consistent(s)
    ensures Consistent(SetSubject(s, subject))
  {
    if s.CanEditSettings() {
      IdleEditKeepsConsistent(s, s.Config().(subject := SetSubject(s, subject).subject));
    }
  }

  /** `setUseSingleSubject` keeps the invariant. */
  lemma SetUseSingleSubjectKeepsConsistent(s: TimerState, useSingle: bool)
    requires Consistent(s)
    ensures Consistent(SetUseSingleSubject(s, useSingle))
  {
    if s.CanEditSettings() {
      DefaultSubjectTrimmed();
      IdleEditKeepsConsistent(s, SetUseSingleSubject(s, useSingle).Config());
    }
  }

  /** In Idle any valid configuration gives a consistent state. */
  lemma IdleEditKeepsConsistent(s: TimerState, c: Configuration)
    requires Consistent(s) && s.phase == Idle && ValidConfig(c)
    ensures Consistent(s.(studyMinutes := c.studyMinutes, rewardMinutes := c.rewardMinutes,
                          subject := c.subject, useSingleSubject := c.useSingleSubject))
  {
  }

  /** Once a cycle has started, no settings operation changes anything. */
  lemma SettingsFrozenOutsideIdle(s: TimerState, minutes: int, subject: string, useSingle: bool)
    requires Consistent(s) && s.phase != Idle
    ensures SetStudyMinutes(s, minutes) == s && SetRewardMinutes(s, minutes) == s
    ensures SetSubject(s, subject) == s && SetUseSingleSubject(s, useSingle) == s
  {
  }

  /** Reset keeps the settings and returns to the invariant's Idle state; doing it twice is doing it once. */
  lemma ResetLaw(s: TimerState)
    requires ValidConfig(s.Config())
    ensures Consistent(Reset(s))
    ensures Reset(Reset(s)) == Reset(s)
    ensures Reset(s) == Initial.(studyMinutes := s.studyMinutes, rewardMinutes := s.rewardMinutes,
                                 subject := s.subject, useSingleSubject := s.useSingleSubject)
  {
  }

  /** Pausing twice is pausing once. */
  lemma PauseIdempotent(s: TimerState)
    ensures Pause(Pause(s)) == Pause(s)
  {
  }

  /** Start and pause keep the invariant. */
  lemma StartPauseKeepConsistent(s: TimerState)
    requires Consistent(s)
    ensures Consistent(Start(s))
    ensures Consistent(Pause(s))
  {
  }

  /** Pausing mid-cycle and starting again resumes with nothing but `isRunning` changed. */
  lemma PauseThenStartResumes(s: TimerState)
    requires s.phase != Idle
    ensures Start(Pause(s)) == s.(isRunning := true)
  {
  }

  /**
   * One tick keeps the invariant, so no committed non-Idle state ever has
   * zero or negative time left, and the study-second counter stays exact.
   */
  lemma TickKeepsConsistent(s: TimerState, now: int)
    requires Consistent(s)
    ensures Consistent(Tick(s, now).next)
    ensures Tick(s, now).next.phase != Idle ==> Tick(s, now).next.remainingSeconds > 0
  {
    var r := Tick(s, now).next;
    if s.isRunning && s.remainingSeconds - 1 <= 0 && s.phase == Reward {
      assert r.cycleCount * r.StudySeconds() - r.remainingSeconds
          == s.cycleCount * s.StudySeconds();
    }
  }

  /**
   * A tick hands over a record exactly when a running study block completes,
   * and reports a completion exactly when a running non-Idle phase reaches zero.
   */
  lemma TickOutputs(s: TimerState, now: int)
    requires Consistent(s)
    ensures Tick(s, now).record.Some? <==>
              s.isRunning && s.phase == Study && s.remainingSeconds == 1
    ensures Tick(s, now).completed.Some? <==> s.isRunning && s.remainingSeconds == 1
    ensures Tick(s, now).completed.Some? ==> Tick(s, now).completed == Some(s.phase)
    ensures Tick(s, now).record.Some? ==>
              Tick(s, now).record.value.totalStudySeconds == s.StudySeconds()
              && Tick(s, now).next.totalStudySecondsCompleted
                 == Tick(s, now).next.cycleCount * Tick(s, now).record.value.totalStudySeconds
  {
  }

  /** Records made from a consistent state at a Long timestamp fit the record's Kotlin types. */
  lemma CompletedBlockWellTyped(s: TimerState, now: int)
    requires ValidConfig(s.Config()) && Json.IsLong(now)
    ensures CompletedBlock(s, now).WellTyped()
  {
  }

  /** The display fields split the remaining time into minutes and seconds. */
  lemma DisplayLaw(s: TimerState)
    requires Consistent(s)
    ensures s.DisplayMinutes() * SECONDS_PER_MINUTE + s.DisplaySeconds() == s.remainingSeconds
    ensures 0 <= s.DisplaySeconds() < SECONDS_PER_MINUTE
    ensures 0 <= s.DisplayMinutes() <= MAX_STUDY_MINUTES
  {
  }

  // ---------------------------------------------------------------------
  // runs of ticks

  /** The outcome of a sequence of ticks: last state and everything emitted, in order. */
  datatype Trace = Trace(last: TimerState, records: seq<Record>, completed: seq<Phase>)

  /** One tick's outcome followed by the rest of a run. */
  function Emit(step: Step, rest: Trace): Trace {
    Trace(rest.last, AsSeq(step.record) + rest.records, AsSeq(step.completed) + rest.completed)
  }

  /** Two runs back to back: the second one's last state, everything emitted in order. */
  function Then(t1: Trace, t2: Trace): Trace {
    Trace(t2.last, t1.records + t2.records, t1.completed + t2.completed)
  }

  /** Ticks once per clock reading in `nows`. */
  function Run(s: TimerState, nows: seq<int>): Trace
    decreases |nows|
  {
    if nows == [] then Trace(s, [], [])
    else
      var step := Tick(s, nows[0]);
      Emit(step, Run(step.next, nows[1..]))
  }

  lemma EmitThen(step: Step, t1: Trace, t2: Trace)
    ensures Emit(step, Then(t1, t2)) == Then(Emit(step, t1), t2)
  {
    assert AsSeq(step.record) + (t1.records + t2.records)
        == (AsSeq(step.record) + t1.records) + t2.records;
    assert AsSeq(step.completed) + (t1.completed + t2.completed)
        == (AsSeq(step.completed) + t1.completed) + t2.completed;
  }

  /**
   * Running two sequences of ticks back to back ends where the second run
   * from the first one's last state ends, having emitted both runs' records
   * and completed phases in order.
   */
  lemma {:induction false} RunAppend(s: TimerState, a: seq<int>, b: seq<int>)
    ensures Run(s, a + b) == Then(Run(s, a), Run(Run(s, a).last, b))
    decreases |a|
  {
    if a == [] {
      assert a + b == b;
    } else {
      assert (a + b)[0] == a[0] && (a + b)[1..] == a[1..] + b;
      var step := Tick(s, a[0]);
      RunAppend(step.next, a[1..], b);
      var t1 := Run(step.next, a[1..]);
      EmitThen(step, t1, Run(t1.last, b));
    }
  }

  /** Fewer ticks than the time left only count down, and emit nothing. */
  lemma {:induction false} CountdownWithinPhase(s: TimerState, nows: seq<int>)
    requires Consistent(s) && s.isRunning && s.phase != Idle
    requires |nows| < s.remainingSeconds
    ensures Run(s, nows) ==
      Trace(s.(remainingSeconds := s.remainingSeconds - |nows|,
               totalStudySecondsCompleted := s.totalStudySecondsCompleted
                 + (if s.phase == Study then |nows| else 0)),
            [], [])
    decreases |nows|
  {
    if nows != [] {
      TickKeepsConsistent(s, nows[0]);
      CountdownWithinPhase(Tick(s, nows[0]).next, nows[1..]);
    }
  }

  /**
   * A running study block with t seconds left completes after exactly t
   * ticks: Reward begins with its full length and exactly one record, with
   * the block's full length, is handed over.
   */
  lemma StudyBlockCompletes(s: TimerState, nows: seq<int>)
    requires Consistent(s) && s.isRunning && s.phase == Study
    requires |nows| == s.remainingSeconds
    ensures Run(s, nows) ==
      Trace(s.(phase := Reward, remainingSeconds := s.RewardSeconds(),
               totalStudySecondsCompleted := s.totalStudySecondsCompleted + s.remainingSeconds),
            [CompletedBlock(s, nows[|nows| - 1])], [Study])
  {
    var n := |nows|;
    var pre, now := nows[..n - 1], nows[n - 1];
    assert nows == pre + [now];
    CountdownWithinPhase(s, pre);
    RunAppend(s, pre, [now]);
  }

  /** A running reward with t seconds left ends after exactly t ticks, starting the next study block. */
  lemma RewardCompletes(s: TimerState, nows: seq<int>)
    requires Consistent(s) && s.isRunning && s.phase == Reward
    requires |nows| == s.remainingSeconds
    ensures Run(s, nows) ==
      Trace(s.(phase := Study, remainingSeconds := s.StudySeconds(), cycleCount := s.cycleCount + 1),
            [], [Reward])
  {
    var n := |nows|;
    var pre, now := nows[..n - 1], nows[n - 1];
    assert nows == pre + [now];
    CountdownWithinPhase(s, pre);
    RunAppend(s, pre, [now]);
  }

  /**
   * One-minute study and reward, first half: after start, 60 ticks reach
   * Reward with 60 seconds left, 60 study seconds counted and one 60-second
   * record handed over.
   */
  lemma OneMinuteFirstBlock(s: TimerState, first: seq<int>)
    requires Consistent(s) && s.phase == Idle
    requires s.studyMinutes == 1 && s.rewardMinutes == 1
    requires |first| == 60
    ensures Start(s).phase == Study && Start(s).remainingSeconds == 60
    ensures Run(Start(s), first).last == Start(s).(phase := Reward, totalStudySecondsCompleted := 60)
    ensures Run(Start(s), first).records == [Record(first[59], s.subject, 1, 1, 60, first[59])]
  {
    StartPauseKeepConsistent(s);
    StudyBlockCompletes(Start(s), first);
  }

  /**
   * One-minute study and reward, second half: 60 more ticks begin the
   * second study block with 60 seconds and no record.
   */
  lemma OneMinuteScenario(s: TimerState, first: seq<int>, second: seq<int>)
    requires Consistent(s) && s.phase == Idle
    requires s.studyMinutes == 1 && s.rewardMinutes == 1
    requires |first| == 60 && |second| == 60
    ensures Run(Run(Start(s), first).last, second).last.phase == Study
    ensures Run(Run(Start(s), first).last, second).last.remainingSeconds == 60
    ensures Run(Run(Start(s), first).last, second).last.cycleCount == 2
    ensures Run(Run(Start(s), first).last, second).records == []
  {
    OneMinuteFirstBlock(s, first);
    var mid := Run(Start(s), first).last;
    StartPauseKeepConsistent(s);
    TicksKeepConsistent(Start(s), first);
    RewardCompletes(mid, second);
  }

  /** Any run of ticks keeps the invariant. */
  lemma {:induction false} TicksKeepConsistent(s: TimerState, nows: seq<int>)
    requires Consistent(s)
    ensures Consistent(Run(s, nows).last)
    decreases |nows|
  {
    if nows != [] {
      TickKeepsConsistent(s, nows[0]);
      TicksKeepConsistent(Tick(s, nows[0]).next, nows[1..]);
    }
  }
}
