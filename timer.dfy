/**
 * StudyTimerViewModel: the object that owns the timer. It holds the
 * committed `TimerState`, whether a ticker job is alive, and the per-block
 * study-second counter, and hands completed study blocks to the history.
 * The environment calls `Tick` once per second while the ticker is alive.
 */
module Timer {
  import opened Wrappers
  import opened SessionRecord
  import opened TimerModel
  import Json
  import History

  /** The per-block counter holds 0 in the first study block of a run and a full block after it. */
  predicate BlockCounterMatches(s: TimerState, counter: int) {
    match s.phase
    case Idle => true
    case Study => counter == if s.cycleCount == 1 then 0 else s.StudySeconds()
    case Reward => counter == s.StudySeconds()
  }

  /** A tick keeps the counter in step: a completed study block sets it to a full block. */
  lemma TickKeepsBlockCounter(s: TimerState, counter: int, now: int)
    requires Consistent(s) && BlockCounterMatches(s, counter)
    ensures BlockCounterMatches(Tick(s, now).next,
                                if Tick(s, now).record.Some? then s.StudySeconds() else counter)
  {
    TickOutputs(s, now);
  }

  class StudyTimerViewModel {
    const historyRepository: History.HistoryRepository
    /** The value of the `state` flow. */
    var state: TimerState
    /** `tickJob` holds a live ticker. */
    var ticking: bool
    var studySecondsThisBlock: int

    /**
     * The committed state is consistent, a ticker is alive exactly while the
     * timer runs, and the per-block counter is zero in the first study block
     * of a run and a full block after that.
     */
    ghost predicate Valid()
      reads this
    {
      Consistent(state)
      && ticking == state.isRunning
      && BlockCounterMatches(state, studySecondsThisBlock)
    }


    constructor (repository: History.HistoryRepository)
      ensures Valid()
      ensures historyRepository == repository
      ensures state == Initial && !ticking && studySecondsThisBlock == 0
    {
      historyRepository := repository;
      state := Initial;
      ticking := false;
      studySecondsThisBlock := 0;
      new;
      InitialConsistent();
    }

    method SetStudyMinutes(minutes: int)
      requires Valid()
      modifies this`state
      ensures Valid()
      ensures state == TimerModel.SetStudyMinutes(old(state), minutes)
    {
      var s := state;
      SetStudyMinutesKeepsConsistent(s, minutes);
      state := TimerModel.SetStudyMinutes(s, minutes);
      assert s.phase != Idle ==> state == s;
    }

    method SetRewardMinutes(minutes: int)
      requires Valid()
      modifies this`state
      ensures Valid()
      ensures state == TimerModel.SetRewardMinutes(old(state), minutes)
    {
      var s := state;
      SetRewardMinutesKeepsConsistent(s, minutes);
      state := TimerModel.SetRewardMinutes(s, minutes);
      assert s.phase != Idle ==> state == s;
    }

    method SetSubject(subject: string)
      requires Valid()
      modifies this`state
      ensures Valid()
      ensures state == TimerModel.SetSubject(old(state), subject)
    {
      var s := state;
      SetSubjectKeepsConsistent(s, subject);
      state := TimerModel.SetSubject(s, subject);
      assert s.phase != Idle ==> state == s;
    }

    method SetUseSingleSubject(useSingle: bool)
      requires Valid()
      modifies this`state
      ensures Valid()
      ensures state == TimerModel.SetUseSingleSubject(old(state), useSingle)
    {
      var s := state;
      SetUseSingleSubjectKeepsConsistent(s, useSingle);
      state := TimerModel.SetUseSingleSubject(s, useSingle);
      assert s.phase != Idle ==> state == s;
    }

    /** `start`: a new block from Idle (counter cleared), else resume; a fresh ticker either way. */
    method Start()
      requires Valid()
      modifies this
      ensures Valid()
      ensures state == TimerModel.Start(old(state)) && ticking
      ensures old(state).phase == Idle ==> studySecondsThisBlock == 0
      ensures old(state).phase != Idle ==> studySecondsThisBlock == old(studySecondsThisBlock)
    {
      StartPauseKeepConsistent(state);
      if state.phase == Idle {
        studySecondsThisBlock := 0;
      }
      state := TimerModel.Start(state);
      ticking := true;
    }

    /** `pause`: stop running and cancel the ticker. */
    method Pause()
      requires Valid()
      modifies this
      ensures Valid()
      ensures state == TimerModel.Pause(old(state)) && !ticking
      ensures studySecondsThisBlock == old(studySecondsThisBlock)
    {
      StartPauseKeepConsistent(state);
      state := TimerModel.Pause(state);
      ticking := false;
    }

    /** `reset`: cancel the ticker and return to a fresh Idle state with the same settings. */
    method Reset()
      requires Valid()
      modifies this
      ensures Valid()
      ensures state == TimerModel.Reset(old(state)) && !ticking
      ensures studySecondsThisBlock == old(studySecondsThisBlock)
    {
      ResetLaw(state);
      ticking := false;
      state := TimerModel.Reset(state);
    }

    /**
     * `switchPhase`: computes the next state, sets the per-block counter
     * when a study block ends, and builds the record and the completion
     * event. The clock reading `now` stands for `System.currentTimeMillis()`.
     */
    method SwitchPhase(current: TimerState, now: int)
      returns (next: TimerState, completed: Option<Phase>, record: Option<Record>)
      modifies this`studySecondsThisBlock
      ensures Step(next, completed, record) == TimerModel.SwitchPhase(current, now)
      ensures current.phase == Study ==> studySecondsThisBlock == current.StudySeconds()
      ensures current.phase != Study ==> studySecondsThisBlock == old(studySecondsThisBlock)
    {
      match current.phase {
        case Study =>
          studySecondsThisBlock := current.studyMinutes * SECONDS_PER_MINUTE;
          next := current.(phase := Reward,
                           remainingSeconds := current.rewardMinutes * SECONDS_PER_MINUTE,
                           totalStudySecondsCompleted := current.totalStudySecondsCompleted + 1);
        case Reward =>
          next := current.(phase := Study,
                           remainingSeconds := current.studyMinutes * SECONDS_PER_MINUTE,
                           cycleCount := current.cycleCount + 1);
        case Idle =>
          next := current;
      }
      record := None;
      if current.phase == Study {
        record := Some(Record(now, current.subject, current.studyMinutes, current.rewardMinutes,
                              studySecondsThisBlock, now));
      }
      completed := None;
      if current.phase != Idle {
        completed := Some(current.phase);
      }
    }

    /**
     * One iteration of the ticker loop. It returns the phase reported to
     * `onPhaseComplete` and the record of a completed study block, which it
     * also appends to the history.
     */
    method Tick(now: int) returns (completed: Option<Phase>, record: Option<Record>)
      requires Valid() && Json.IsLong(now)
      modifies this, historyRepository
      ensures Valid()
      ensures Step(state, completed, record) == TimerModel.Tick(old(state), now)
      ensures ticking == old(ticking)
      ensures record.Some? ==>
                record.value.WellTyped() && studySecondsThisBlock == record.value.totalStudySeconds
      ensures record.None? ==> studySecondsThisBlock == old(studySecondsThisBlock)
      ensures historyRepository.sessions == old(historyRepository.sessions) + AsSeq(record)
      ensures record.Some? ==> historyRepository.Persisted()
      ensures record.None? ==> historyRepository.prefs == old(historyRepository.prefs)
    {
      ghost var step := TimerModel.Tick(state, now);
      TickKeepsConsistent(state, now);
      TickKeepsBlockCounter(state, studySecondsThisBlock, now);
      TickOutputs(state, now);
      CompletedBlockWellTyped(state, now);
      completed, record := None, None;
      if !ticking {
        return;
      }
      var s := state;
      if !s.isRunning {
        return;
      }
      var next := s.remainingSeconds - 1;
      if next <= 0 {
        var n;
        n, completed, record := SwitchPhase(s, now);
        assert Step(n, completed, record) == step;
        state := n;
        if record.Some? {
          historyRepository.AddSession(record.value);
        }
      } else {
        state := s.(remainingSeconds := next,
                    totalStudySecondsCompleted :=
                      if s.phase == Study then s.totalStudySecondsCompleted + 1
                      else s.totalStudySecondsCompleted);
        assert Step(state, completed, record) == step;
      }
    }

    /** `getSubjectSuggestions`, answered by the history. */
    function GetSubjectSuggestions(): (r: seq<string>)
      reads this, historyRepository
      ensures |r| > 0 && r[0] == History.DEFAULT_SUBJECT
      ensures forall x ::
                x in r <==> x == History.DEFAULT_SUBJECT || x in History.Subjects(historyRepository.sessions)
      ensures History.NoDuplicates(r)
      ensures History.InFirstAppearanceOrder([History.DEFAULT_SUBJECT] + History.Subjects(historyRepository.sessions), r)
    {
      historyRepository.GetSubjectSuggestions()
    }
  }
}
