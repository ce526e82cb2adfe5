# SmartRead study timer: a Dafny model

SmartRead is an Android study/reward interval timer. The user picks a study length (1–120 minutes) and a reward length (1–60 minutes) and starts the countdown. The app then alternates Study and Reward phases, reports each completed phase, and logs every completed study block as a session record in a persisted history.

This project models three parts of the app:

- the timer state machine of `StudyTimerViewModel`;
- the history log of `HistoryRepository`;
- the `StudySessionRecord` value and its JSON encoding.

## Layout

| file | module | models |
|---|---|---|
| `wrappers.dfy` | `Wrappers` | `Option` and `Result` (a `Result` error stands for a thrown exception) |
| `json.dfy` | `Json` | the org.json slice used: an object as a map from key to a number or string, plus the typed getters and Java's int/long narrowing |
| `text.dfy` | `Text` | Kotlin's `String.trim()` and the JVM whitespace it strips |
| `session_record.dfy` | `SessionRecord` | `StudySessionRecord`, `toJson`, `fromJson` |
| `history.dfy` | `History` | `distinct()`, the newest-first sort, the persisted array, `loadSessions`, and the class `HistoryRepository` |
| `timer_model.dfy` | `TimerModel` | `TimerState` and each transition as a pure function (the `copy(...)` expressions), the invariant `Consistent`, and the lemmas about runs of ticks |
| `timer.dfy` | `Timer` | the class `StudyTimerViewModel`, with fields `state`, `ticking` (`tickJob` is live) and `studySecondsThisBlock` |

Each method of `StudyTimerViewModel` is proved against the matching `TimerModel` function. It also keeps `Valid()`, which is `Consistent(state)` plus two facts:

- a ticker is alive exactly while the timer runs;
- the per-block counter holds 0 in the first study block of a run and `studyMinutes*60` after that.

`Consistent` says that:

- the settings are in range, and the subject is non-blank and already trimmed;
- an Idle state has 0 seconds left, is not running, and has `cycleCount` 0;
- a Study or Reward state has between 1 second and its full phase length left;
- `totalStudySecondsCompleted` equals the number of Study ticks so far: `cycleCount*S - remainingSeconds` during Study and `cycleCount*S` during Reward, where `S = studyMinutes*60`.

So a pause followed by a resume loses no tick. The record's fixed `totalStudySeconds = studyMinutes*60` always equals the number of ticks spent in that block.

## Environment

- The environment drives the ticker: it calls `Tick(now)` once per second. `now` stands for `System.currentTimeMillis()`.
- `Tick` returns the phase passed to `onPhaseComplete` and the record of a completed study block.
- `Tick` also calls `HistoryRepository.AddSession` with that record, at once. The source launches this call without waiting for it.
- `SharedPreferences` is the field `prefs: Option<Stored>`. `None` means nothing is stored. A stored value is either not a JSON array or an array of elements, and each element is an object or something else.

## Notes on the source

- `loadSessions` is all-or-nothing: a single element that fails to decode makes the whole history empty, because one `try` surrounds the decoding of every element (`app/src/main/java/com/example/smartread/history/HistoryRepository.kt:33-39`, `History.LoadSessions`).
- `addSession` appends the new record at the end of the list (`app/src/main/java/com/example/smartread/history/HistoryRepository.kt:16`), while loading sorts newest-first. The in-memory list is therefore newest-first only until the first addition after loading.
- A Dafny `string` is a sequence of Unicode scalar values, not of UTF-16 code units, so a lone surrogate in a subject cannot be represented. `trim` is unaffected: every whitespace character it strips lies in the Basic Multilingual Plane.

## Model

| member | source | states |
|---|---|---|
| Json.ToLong | app/src/main/java/com/example/smartread/history/StudySessionRecord.kt:28 | Java's narrowing to long: the result fits 64 bits, agrees with the input modulo 2^64, and is the input itself when that already fits |
| Json.ToInt | app/src/main/java/com/example/smartread/history/StudySessionRecord.kt:30-31 | Java's narrowing to int: the result fits 32 bits, agrees with the input modulo 2^32, and is the input itself when that already fits |
| Json.GetLong | app/src/main/java/com/example/smartread/history/StudySessionRecord.kt:28 | succeeds exactly when the key holds a number, and gives its long value; otherwise the error names the key |
| Json.GetInt | app/src/main/java/com/example/smartread/history/StudySessionRecord.kt:30-31 | succeeds exactly when the key holds a number, and narrows it to 32 bits as Java does |
| Json.GetString | app/src/main/java/com/example/smartread/history/StudySessionRecord.kt:29 | succeeds exactly when the key holds a string, and gives that string |
| SessionRecord.ToJson | app/src/main/java/com/example/smartread/history/StudySessionRecord.kt:17-24 | the object has exactly the six record keys, each holding its field's value |
| SessionRecord.FromJson | app/src/main/java/com/example/smartread/history/StudySessionRecord.kt:27-34 | succeeds iff every number key holds a number and "subject" a string; on failure the error names a record key, and MissingKey means that key is absent; a decoded record fits the Kotlin field types |
| SessionRecord.RoundTrip | app/src/main/java/com/example/smartread/history/StudySessionRecord.kt:17-34 | decoding the encoding of any well-typed record gives the record back |
| SessionRecord.MissingKeyFails | app/src/main/java/com/example/smartread/history/StudySessionRecord.kt:27-34 | a missing key, whichever of the six, makes decoding fail |
| SessionRecord.ExtraKeysIgnored | app/src/main/java/com/example/smartread/history/StudySessionRecord.kt:27-34 | keys other than the six do not change the decoding |
| SessionRecord.ToJsonInjective | app/src/main/java/com/example/smartread/history/StudySessionRecord.kt:17-24 | distinct well-typed records have distinct encodings |
| Text.SkipLeading | app/src/main/java/com/example/smartread/timer/StudyTimerViewModel.kt:63 | the forward scan of `trim` stops at the first non-blank character from the given index on (or the end), passing only whitespace |
| Text.SkipTrailing | app/src/main/java/com/example/smartread/timer/StudyTimerViewModel.kt:63 | the backward scan of `trim` stops just after the last non-blank character below the given end, passing only whitespace and never going below where the forward scan stopped |
| Text.Trim | app/src/main/java/com/example/smartread/timer/StudyTimerViewModel.kt:63 | the trim is no longer than the input, and it neither starts nor ends with whitespace |
| Text.TrimShape | app/src/main/java/com/example/smartread/timer/StudyTimerViewModel.kt:63 | the trim is a stretch of the input with only whitespace before and after it, and it neither starts nor ends with whitespace |
| Text.TrimCharacterised | app/src/main/java/com/example/smartread/timer/StudyTimerViewModel.kt:63 | any split of the input into a blank prefix, a core with non-blank ends and a blank suffix has that core as its trim, so the trim is unique |
| Text.TrimOfTrimmedEnds | app/src/main/java/com/example/smartread/timer/StudyTimerViewModel.kt:63 | a string with non-blank ends is its own trim |
| Text.TrimIdempotent | app/src/main/java/com/example/smartread/timer/StudyTimerViewModel.kt:63 | trimming twice is trimming once |
| History.Distinct | app/src/main/java/com/example/smartread/history/HistoryRepository.kt:27-28 | same elements as the input, with no duplicates |
| History.IndexOf | app/src/main/java/com/example/smartread/history/HistoryRepository.kt:27-28 | the position of the first occurrence of an element |
| History.DistinctOrder | app/src/main/java/com/example/smartread/history/HistoryRepository.kt:27-28 | distinct() lists elements in order of their first appearance |
| History.DistinctHead | app/src/main/java/com/example/smartread/history/HistoryRepository.kt:28 | the input's first element comes first in the result |
| History.DistinctOfDistinctSuffix | app/src/main/java/com/example/smartread/history/HistoryRepository.kt:27-28 | applying distinct() to the subjects before prepending "General" gives the same result as one distinct() over the whole list |
| History.InsertNewestFirst | app/src/main/java/com/example/smartread/history/HistoryRepository.kt:36 | inserting one record keeps every element: the multiset gains exactly that record |
| History.InsertKeepsSorted | app/src/main/java/com/example/smartread/history/HistoryRepository.kt:36 | inserting into a newest-first list keeps it newest-first |
| History.SortNewestFirst | app/src/main/java/com/example/smartread/history/HistoryRepository.kt:36 | the result is a permutation of the input, with non-increasing completedAt |
| History.SortKeepsSorted | app/src/main/java/com/example/smartread/history/HistoryRepository.kt:36 | a list that is already newest-first comes out unchanged (the sort is stable on sorted input) |
| History.DecodeElement | app/src/main/java/com/example/smartread/history/HistoryRepository.kt:35 | an element decodes exactly when it is an object holding all six record keys with the right kinds, and the decoded record fits its Kotlin field types |
| History.DecodeAll | app/src/main/java/com/example/smartread/history/HistoryRepository.kt:34-35 | succeeds iff every element is an object that decodes, and then gives each decoded record in array order |
| History.LoadSessions | app/src/main/java/com/example/smartread/history/HistoryRepository.kt:31-40 | the loaded list is always newest-first, and it is non-empty only when an array is stored and every element of it decodes |
| History.LoadSessionsLaw | app/src/main/java/com/example/smartread/history/HistoryRepository.kt:31-40 | loading is always newest-first; it is empty when nothing is stored, when the value is not an array, or when any element fails; otherwise it holds exactly the decoded records |
| History.DecodeEncoded | app/src/main/java/com/example/smartread/history/HistoryRepository.kt:35-44 | decoding the array that saveSessions writes gives the list back |
| History.LoadAfterSave | app/src/main/java/com/example/smartread/history/HistoryRepository.kt:31-46 | after saveSessions(list), loading gives a newest-first permutation of list, and list itself when it was already newest-first |
| History.Encoded | app/src/main/java/com/example/smartread/history/HistoryRepository.kt:44 | one element per record, each a JSON object with exactly the six record keys |
| History.EncodeSessions | app/src/main/java/com/example/smartread/history/HistoryRepository.kt:43-44 | the forEach loop puts one encoded object per record, in list order |
| History.Subjects | app/src/main/java/com/example/smartread/history/HistoryRepository.kt:27 | the i-th subject is session i's subject |
| History.HistoryRepository.constructor | app/src/main/java/com/example/smartread/history/HistoryRepository.kt:12 | the in-memory list starts as the loaded history; the store is untouched |
| History.HistoryRepository.AddSession | app/src/main/java/com/example/smartread/history/HistoryRepository.kt:15-19 | appends the record at the end, with no deduplication, and the store then holds exactly the in-memory list |
| History.HistoryRepository.ClearHistory | app/src/main/java/com/example/smartread/history/HistoryRepository.kt:21-24 | the in-memory list is empty and the store holds an empty array |
| History.HistoryRepository.SaveSessions | app/src/main/java/com/example/smartread/history/HistoryRepository.kt:42-46 | the store holds the encoding of the given list; nothing else changes |
| History.HistoryRepository.GetSubjectSuggestions | app/src/main/java/com/example/smartread/history/HistoryRepository.kt:26-29 | "General" comes first, even with no history; no duplicates; a string appears iff it is "General" or some session's subject; first-appearance order |
| TimerModel.NormalizedSubject | app/src/main/java/com/example/smartread/timer/StudyTimerViewModel.kt:63 | the trimmed text, or "General" when that is blank; never empty and already trimmed |
| TimerModel.DefaultSubjectTrimmed | app/src/main/java/com/example/smartread/timer/StudyTimerViewModel.kt:19 | the default subject is non-empty and trimmed |
| TimerModel.SetStudyMinutes | app/src/main/java/com/example/smartread/timer/StudyTimerViewModel.kt:46-52 | sets studyMinutes to n exactly when n is in [1,120] and settings are editable; otherwise the whole state is unchanged |
| TimerModel.SetRewardMinutes | app/src/main/java/com/example/smartread/timer/StudyTimerViewModel.kt:54-60 | sets rewardMinutes to n exactly when n is in [1,60] and settings are editable; otherwise the whole state is unchanged |
| TimerModel.SetSubject | app/src/main/java/com/example/smartread/timer/StudyTimerViewModel.kt:62-67 | while editable only the subject changes: to the trimmed text, or "General" if that is blank; while locked nothing changes |
| TimerModel.SetUseSingleSubject | app/src/main/java/com/example/smartread/timer/StudyTimerViewModel.kt:69-76 | while editable, true sets the flag and the subject "General", and false keeps the subject; while locked nothing changes |
| TimerModel.Start | app/src/main/java/com/example/smartread/timer/StudyTimerViewModel.kt:78-95 | from Idle: Study, with a full block left and cycleCount+1; otherwise only isRunning is set; settings and the study counter are kept |
| TimerModel.Pause | app/src/main/java/com/example/smartread/timer/StudyTimerViewModel.kt:97-98 | only isRunning changes, to false |
| TimerModel.Reset | app/src/main/java/com/example/smartread/timer/StudyTimerViewModel.kt:103-114 | keeps the four settings; Idle, 0 seconds, not running, cycleCount 0, study counter 0 |
| TimerModel.SwitchPhase | app/src/main/java/com/example/smartread/timer/StudyTimerViewModel.kt:139-176 | Study goes to a full Reward with counter+1 and exactly one record; Reward goes to a full Study with cycleCount+1 and no record; a completion is reported exactly for a non-Idle phase; settings are kept |
| TimerModel.Tick | app/src/main/java/com/example/smartread/timer/StudyTimerViewModel.kt:121-133 | no change when not running; with more than one second left, it takes exactly one second off and adds one to the counter only in Study; otherwise it is the phase switch |
| TimerModel.TimerState.DisplayMinutes | app/src/main/java/com/example/smartread/timer/StudyTimerViewModel.kt:27 | the whole minutes left, rounded toward zero as Kotlin's Int division does |
| TimerModel.TimerState.DisplaySeconds | app/src/main/java/com/example/smartread/timer/StudyTimerViewModel.kt:28 | the seconds past the whole minutes: strictly between -60 and 60, signed like the time left, and a whole number of minutes away from it |
| TimerModel.TimerState.CanEditSettings | app/src/main/java/com/example/smartread/timer/StudyTimerViewModel.kt:29 | editing is allowed only in Idle, and in every state satisfying the invariant exactly in Idle |
| TimerModel.CompletedBlock | app/src/main/java/com/example/smartread/timer/StudyTimerViewModel.kt:160-167 | the record of a just-finished block: id and completedAt are the same clock reading, subject and settings are the block's, and totalStudySeconds is a full block |
| TimerModel.InitialConsistent | app/src/main/java/com/example/smartread/timer/StudyTimerViewModel.kt:16-25 | the default TimerState (the constant `TimerModel.Initial`: 25 and 5 minutes, subject "General", Idle, nothing counted) satisfies the invariant |
| TimerModel.SetStudyMinutesKeepsConsistent | app/src/main/java/com/example/smartread/timer/StudyTimerViewModel.kt:46-52 | setStudyMinutes keeps the invariant |
| TimerModel.SetRewardMinutesKeepsConsistent | app/src/main/java/com/example/smartread/timer/StudyTimerViewModel.kt:54-60 | setRewardMinutes keeps the invariant |
| TimerModel.SetSubjectKeepsConsistent | app/src/main/java/com/example/smartread/timer/StudyTimerViewModel.kt:62-67 | setSubject keeps the invariant, so the stored subject is never blank |
| TimerModel.SetUseSingleSubjectKeepsConsistent | app/src/main/java/com/example/smartread/timer/StudyTimerViewModel.kt:69-76 | setUseSingleSubject keeps the invariant |
| TimerModel.IdleEditKeepsConsistent | app/src/main/java/com/example/smartread/timer/StudyTimerViewModel.kt:29 | while Idle, any valid configuration gives a consistent state |
| TimerModel.SettingsFrozenOutsideIdle | app/src/main/java/com/example/smartread/timer/StudyTimerViewModel.kt:29 | once a cycle has started, no settings operation changes anything |
| TimerModel.ResetLaw | app/src/main/java/com/example/smartread/timer/StudyTimerViewModel.kt:103-114 | reset gives a consistent state, is idempotent, and equals the default state with the current settings |
| TimerModel.PauseIdempotent | app/src/main/java/com/example/smartread/timer/StudyTimerViewModel.kt:97-101 | pausing twice is pausing once |
| TimerModel.StartPauseKeepConsistent | app/src/main/java/com/example/smartread/timer/StudyTimerViewModel.kt:78-101 | start and pause keep the invariant |
| TimerModel.PauseThenStartResumes | app/src/main/java/com/example/smartread/timer/StudyTimerViewModel.kt:91-98 | pause then start in mid-cycle changes nothing but isRunning |
| TimerModel.TickKeepsConsistent | app/src/main/java/com/example/smartread/timer/StudyTimerViewModel.kt:121-154 | a tick keeps the invariant; no committed non-Idle state has 0 or fewer seconds left |
| TimerModel.TickOutputs | app/src/main/java/com/example/smartread/timer/StudyTimerViewModel.kt:139-173 | a record is handed over iff a running study block ends; a completion is reported iff a running non-Idle phase ends, and carries that phase; the record's seconds are one full block, and the counter is then cycleCount blocks |
| TimerModel.CompletedBlockWellTyped | app/src/main/java/com/example/smartread/timer/StudyTimerViewModel.kt:160-167 | the record fits its Kotlin field types |
| TimerModel.DisplayLaw | app/src/main/java/com/example/smartread/timer/StudyTimerViewModel.kt:27-28 | displayMinutes*60 + displaySeconds is the time left, with 0 <= displaySeconds < 60 |
| TimerModel.RunAppend | app/src/main/java/com/example/smartread/timer/StudyTimerViewModel.kt:118-136 | two runs of ticks back to back are one run whose outputs are concatenated |
| TimerModel.CountdownWithinPhase | app/src/main/java/com/example/smartread/timer/StudyTimerViewModel.kt:119-133 | fewer ticks than the remaining seconds only count down, and emit nothing |
| TimerModel.StudyBlockCompletes | app/src/main/java/com/example/smartread/timer/StudyTimerViewModel.kt:119-169 | a running study block with t seconds left ends after exactly t ticks, in a full Reward, with exactly one record and one Study completion |
| TimerModel.RewardCompletes | app/src/main/java/com/example/smartread/timer/StudyTimerViewModel.kt:119-154 | a running reward with t seconds left ends after exactly t ticks, in a new full study block with cycleCount+1 |
| TimerModel.TicksKeepConsistent | app/src/main/java/com/example/smartread/timer/StudyTimerViewModel.kt:118-136 | any run of ticks keeps the invariant |
| TimerModel.OneMinuteFirstBlock | app/src/main/java/com/example/smartread/timer/StudyTimerViewModel.kt:78-169 | with 1-minute settings, 60 ticks after start: Reward, 60 s left, 60 study seconds, one 60-second record |
| TimerModel.OneMinuteScenario | app/src/main/java/com/example/smartread/timer/StudyTimerViewModel.kt:78-169 | 60 more ticks: Study, 60 s left, cycleCount 2, no record |
| Timer.StudyTimerViewModel.constructor | app/src/main/java/com/example/smartread/timer/StudyTimerViewModel.kt:32-41 | starts in the default state, with no ticker and a zero counter |
| Timer.StudyTimerViewModel.SetStudyMinutes | app/src/main/java/com/example/smartread/timer/StudyTimerViewModel.kt:46-52 | commits TimerModel.SetStudyMinutes |
| Timer.StudyTimerViewModel.SetRewardMinutes | app/src/main/java/com/example/smartread/timer/StudyTimerViewModel.kt:54-60 | commits TimerModel.SetRewardMinutes |
| Timer.StudyTimerViewModel.SetSubject | app/src/main/java/com/example/smartread/timer/StudyTimerViewModel.kt:62-67 | commits TimerModel.SetSubject |
| Timer.StudyTimerViewModel.SetUseSingleSubject | app/src/main/java/com/example/smartread/timer/StudyTimerViewModel.kt:69-76 | commits TimerModel.SetUseSingleSubject |
| Timer.StudyTimerViewModel.Start | app/src/main/java/com/example/smartread/timer/StudyTimerViewModel.kt:78-95 | commits TimerModel.Start and starts a ticker; the per-block counter is cleared only from Idle |
| Timer.StudyTimerViewModel.Pause | app/src/main/java/com/example/smartread/timer/StudyTimerViewModel.kt:97-101 | commits TimerModel.Pause and cancels the ticker |
| Timer.StudyTimerViewModel.Reset | app/src/main/java/com/example/smartread/timer/StudyTimerViewModel.kt:103-114 | cancels the ticker and commits TimerModel.Reset |
| Timer.StudyTimerViewModel.SwitchPhase | app/src/main/java/com/example/smartread/timer/StudyTimerViewModel.kt:139-176 | yields TimerModel.SwitchPhase's step, with the record built from the per-block counter; the counter is set to a full block exactly when Study ends |
| Timer.StudyTimerViewModel.Tick | app/src/main/java/com/example/smartread/timer/StudyTimerViewModel.kt:116-137 | commits TimerModel.Tick's step; the history grows by exactly the emitted record, which is well-typed, and is then persisted |
| Timer.StudyTimerViewModel.GetSubjectSuggestions | app/src/main/java/com/example/smartread/timer/StudyTimerViewModel.kt:183 | the history's suggestions unchanged: "General" first, no duplicates, exactly "General" and the stored subjects, in order of first appearance |

## Left out

- Coroutine mechanics are left out: `viewModelScope.launch`, `delay(1000L)`, the atomicity of `MutableStateFlow.update`, and the stale-ticker race. The model is sequential. The ticker is the environment calling `Tick`, and a cancelled ticker is `ticking == false`.
- The part of a second that runs before a pause is not modelled. `pause()` cancels the ticker in the middle of `delay(1000L)` (`app/src/main/java/com/example/smartread/timer/StudyTimerViewModel.kt:99`, `app/src/main/java/com/example/smartread/timer/StudyTimerViewModel.kt:118-120`), and after `start()` the ticker waits a full second again. So that fraction of a second never counts, in the source or in the model, which counts whole ticks only.
- The asynchronous `historyRepository.addSession` launch is left out. `Tick` makes the call immediately, so no ordering against concurrent readers is modelled.
- TimerModel.CompletedBlock: `switchPhase` reads `System.currentTimeMillis()` twice, for `id` and for `completedAt`. The model takes one reading `now` for both, so it does not cover the two readings differing by a millisecond.
- `onCleared` and `provideFactory` are left out. They are Android lifecycle and construction glue.
- There is no listener registration for `onPhaseComplete`. The completed phase is an output of `Tick`, and `null` means no listener.
- Timer.StudyTimerViewModel.Tick: `cycleCount` is a 32-bit `Int` and `totalStudySecondsCompleted` a 64-bit `Long`; they are unbounded here. Overflow would need over 2^31 study blocks, so it is not modelled.
- The JSON text form is left out: `JSONArray.toString`, parsing it back, and the preferences file name and key. The stored value is the abstract `Stored` datatype, and a text that is not an array is `NotAnArray`.
- Json.GetLong, Json.GetInt and Json.GetString do not model org.json's coercions. Those parse a numeric string for `getLong` and `getInt`, and give the text of a stored number for `getString`. Here either case is a type error, which loading turns into empty history just as other faults are.
- Json.Value covers only what `toJson` writes: integers and strings. It cannot represent boolean, null, fractional or nested field values. An integer outside the Long range is wrapped by `ToLong` and `ToInt`, whereas org.json on Android reads such a number as a Double, whose conversion saturates.
- History.SortNewestFirst: stability (records with equal `completedAt` keep their order) is proved only in the form SortKeepsSorted, for input that is already sorted.
- `SharedPreferences.apply()` is asynchronous and swallows write failures. Here the write is immediate and always succeeds.
- Compose UI (`TimerScreen.kt`), `MainActivity.kt`, sound playback, notification delivery, theming and the study-tips text are left out. They are presentation and Android integration.
