# Wellnest feature components in Dafny

Wellnest is a React wellness app. Its logic lives in the state of its feature
components: a breathing-exercise timer, water counters, a meal log, a journal
and mood trackers. Each component works as a small state machine. Handlers,
timer callbacks and effects update a few state variables. This project
restates each component as a Dafny class, or as pure functions where the
source computes a value, and proves what the components promise.

React is reduced to sequential calls:
- A click, one second of an interval or one animation frame is one method call.
- An effect keyed on a value runs inside the method that changes that value.
- The browser's key-value store is a pair of map fields.
- The current date key, `Date.now()` ids, the `window.confirm` answer and the
  order `Object.entries` lists stored notes in are method parameters.

Modules:
- `Breathing` holds what both breathing copies share: the technique catalog,
  the phase-label table, `nextPhase` on a countdown value `Clock`, and the
  circle-size formula.
- `FrontendBreathing` models the frontend/ copy. It skips 0-second phases.
- `RootBreathing` models the top-level src/ copy. It counts down to 0 and
  advances, and has no skip.
  - Each breathing module proves a class against pure functions: `Start`,
    `OneSecond`, and `Seconds` (n seconds).
  - Session-level lemmas are then proved about those functions.
- `FrontendWater`, `RootWater` and `Dashboard` are the three water counters.
- `MealTracker` models the meal log. The frontend/ and src/ copies have the
  same logic. The src/ copy's lines sit one below the frontend/ copy's
  because of a leading comment line.
- `Journal`, `FrontendMood` and `RootMood` model the journal and the two mood
  trackers. `Moods` holds their shared catalog and the map update.
  `DateKeys` models the `toISOString` day keys both mood trackers use.
- Shared helpers:
  - `Text`: `trim`, `localeCompare` as code-unit order, and `parseInt`.
  - `Gauge`: the capped percentage bar and the filled-slot rows.
  - `Sorting`: the stable `Array.prototype.sort` by a string key, specified as
    a function on sequences and implemented in place on an array.
  - `Wrappers`: `Option`.

## Model

| member | source | states |
|---|---|---|
| Breathing.PhaseNameAt | frontend/src/features/Breathing/BreathingExercise.jsx:41-49 | The label of phase index p is Inhale exactly when p % 4 == 0 and Exhale exactly when p % 4 == 2. Every other index is Hold. |
| Breathing.CatalogFacts | frontend/src/features/Breathing/BreathingExercise.jsx:6-28 | Every catalog technique has two to four phases and at least one cycle. So the label of an in-range phase index is the table entry at that index, with no wrap-around. Every 0-second phase in the catalog is a Hold. |
| Breathing.NextPhase | frontend/src/features/Breathing/BreathingExercise.jsx:131-147 | The new phase index is below the pattern length. The cycle count stays below `cycles`. `timeLeft` is the full duration of the new phase. |
| Breathing.Idle | frontend/src/features/Breathing/BreathingExercise.jsx:138-145 | The state after the last cycle is inactive, with its phase and cycle in range. |
| Breathing.NextPhaseAdvancesOne | frontend/src/features/Breathing/BreathingExercise.jsx:131-146 | On a running session, nextPhase moves exactly one phase forward, so every wrap to phase 0 counts one cycle. It stays active exactly when fewer than cycles × pattern-length phases would then be done. When it stops, the state is phase 0, cycle 0 and `pattern[0]`. |
| Breathing.CatalogCycleSeconds | frontend/src/features/Breathing/BreathingExercise.jsx:6-28 | One cycle lasts 19 s for 4-7-8, 16 s for Box and 10 s for Deep Breathing. |
| Breathing.CircleSize | frontend/src/features/Breathing/BreathingExercise.jsx:95-108 | Hold keeps the previous size. Inhale and Exhale stay within [100, 100 + span]. Inhale runs from 100 at frame 0 to 100 + span at the last frame. Exhale runs the other way. |
| Breathing.CircleSizeMonotone | frontend/src/features/Breathing/BreathingExercise.jsx:98-104 | Over the frames of one phase, Inhale never shrinks the circle and Exhale never grows it. |
| Breathing.RemainingSecondsIs | frontend/src/features/Breathing/BreathingExercise.jsx:138-145 | Cycles c.. of a session take (cycles − c) × the cycle's seconds. |
| FrontendBreathing.Enter | frontend/src/features/Breathing/BreathingExercise.jsx:61-69 | Entering a phase passes over 0-second phases and wraps or stops at the end of the pattern. The result keeps the invariant. An active result has the full, non-zero duration of its phase. |
| FrontendBreathing.Start | frontend/src/features/Breathing/BreathingExercise.jsx:117-122 | Activation yields a state that satisfies the invariant: phase and cycle in range, and an active countdown between 1 and the phase duration. |
| FrontendBreathing.OneSecond | frontend/src/features/Breathing/BreathingExercise.jsx:73-82 | One interval tick keeps the invariant. |
| FrontendBreathing.Seconds | frontend/src/features/Breathing/BreathingExercise.jsx:73-82 | Any number of ticks keeps the invariant. |
| FrontendBreathing.NextPhaseThenSkip | frontend/src/features/Breathing/BreathingExercise.jsx:63-69 | nextPhase followed by the effect's zero-duration skips is the same as entering the next phase. |
| FrontendBreathing.CountsDown | frontend/src/features/Breathing/BreathingExercise.jsx:74-80 | While more than d seconds are left, d ticks lower `timeLeft` by exactly d and change nothing else. |
| FrontendBreathing.PhaseLasts | frontend/src/features/Breathing/BreathingExercise.jsx:71-82 | A phase with t seconds left ends after exactly t ticks, on the next non-empty phase. A 0-second phase costs no tick. |
| FrontendBreathing.SecondsAdd | frontend/src/features/Breathing/BreathingExercise.jsx:73-82 | a + b ticks are a ticks followed by b ticks. |
| FrontendBreathing.RestOfCycle | frontend/src/features/Breathing/BreathingExercise.jsx:61-82 | From entering phase p, the rest of the cycle takes exactly the seconds of phases p.., and ends at the wrap. |
| FrontendBreathing.ActiveInCycle | frontend/src/features/Breathing/BreathingExercise.jsx:61-82 | From entering phase p, the session is active at every second before the wrap. |
| FrontendBreathing.RemainingCycles | frontend/src/features/Breathing/BreathingExercise.jsx:131-146 | Cycles c.. take their full length and end stopped. The session is active at every earlier second. |
| FrontendBreathing.SessionLength | frontend/src/features/Breathing/BreathingExercise.jsx:131-146 | For any technique with at least two phases (all three in the catalog), a session lasts exactly cycles × sum(pattern) seconds. It is active before that second and stopped at it, back at phase 0, cycle 0 and `pattern[0]`. |
| FrontendBreathing.FourSevenEight | frontend/src/features/Breathing/BreathingExercise.jsx:6-13 | 4-7-8 enters Hold with 7 s after 4 s. It wraps with one cycle counted after 19 s. It is still active at 75 s and stopped at 76 s. |
| FrontendBreathing.DeepBreathingSkipsHold | frontend/src/features/Breathing/BreathingExercise.jsx:63-69 | Deep Breathing starts on phase 0 with 5 s. After 5 s it is on phase 2 with 5 s, so the 0-second Hold never shows. It counts its first cycle at 10 s, is still active at 59 s, and stops after 60 s. |
| FrontendBreathing.BreathingExercise.constructor | frontend/src/features/Breathing/BreathingExercise.jsx:32-39 | The component starts inactive on technique 0, at phase 0, cycle 0, `timeLeft` 0 and circle 100. |
| FrontendBreathing.BreathingExercise.PhaseLabel | frontend/src/features/Breathing/BreathingExercise.jsx:49 | `phases[currentPhase % 4]` is always `phases[currentPhase]`. |
| FrontendBreathing.BreathingExercise.CycleShown | frontend/src/features/Breathing/BreathingExercise.jsx:295 | "Cycle n of N" always has 1 ≤ n ≤ N. |
| FrontendBreathing.BreathingExercise.NextPhase | frontend/src/features/Breathing/BreathingExercise.jsx:131-147 | The fields become `Breathing.NextPhase` of the old countdown, and the animation restarts at frame 0. |
| FrontendBreathing.BreathingExercise.SkipEmptyPhases | frontend/src/features/Breathing/BreathingExercise.jsx:61-69 | Re-running the countdown effect over 0-second phases ends exactly where `Enter` says. |
| FrontendBreathing.BreathingExercise.Toggle | frontend/src/features/Breathing/BreathingExercise.jsx:149-151 | Pausing keeps the countdown and resets the circle to 100. Activating always yields `Start`: phase 0, cycle 0, zero phases skipped. It never resumes. |
| FrontendBreathing.BreathingExercise.Reset | frontend/src/features/Breathing/BreathingExercise.jsx:153-158 | The session becomes inactive, at phase 0, cycle 0 and the technique's `pattern[0]`, with circle 100. |
| FrontendBreathing.BreathingExercise.ChangeTechnique | frontend/src/features/Breathing/BreathingExercise.jsx:160-163 | Selects the technique and resets it. `timeLeft` shows the previously selected technique's first duration. |
| FrontendBreathing.BreathingExercise.Tick | frontend/src/features/Breathing/BreathingExercise.jsx:73-82 | One second moves the fields exactly as `OneSecond` does, and keeps the class invariant. |
| FrontendBreathing.BreathingExercise.Frame | frontend/src/features/Breathing/BreathingExercise.jsx:89-115 | One animation frame sets the circle to `CircleSize` at this frame (span 150) and counts the frame. Past the last frame it changes nothing. The size rises while inhaling and falls while exhaling, and stays within [100, 250]. |
| RootBreathing.Start | src/features/Breathing/BreathingExercise.jsx:94-98 | Activation yields a state that satisfies this copy's invariant, which allows a running session stuck at 0 on a 0-second phase. |
| RootBreathing.OneSecond | src/features/Breathing/BreathingExercise.jsx:56-66 | One second keeps the invariant. |
| RootBreathing.Seconds | src/features/Breathing/BreathingExercise.jsx:56-66 | Any number of seconds keeps the invariant. |
| RootBreathing.SecondsAdd | src/features/Breathing/BreathingExercise.jsx:56-66 | a + b seconds are a seconds followed by b seconds. |
| RootBreathing.CountsDown | src/features/Breathing/BreathingExercise.jsx:57-62 | While time is left, each second lowers `timeLeft` by exactly one, and it never goes below 0. |
| RootBreathing.PhaseLasts | src/features/Breathing/BreathingExercise.jsx:56-66 | A phase with t ≥ 1 seconds left ends after exactly t seconds, with one nextPhase. |
| RootBreathing.StallIsPermanent | src/features/Breathing/BreathingExercise.jsx:56-66 | A running session with `timeLeft` 0 stays exactly as it is, whatever number of seconds pass. |
| RootBreathing.RestOfCycle | src/features/Breathing/BreathingExercise.jsx:107-121 | Without 0-second phases, the rest of a cycle from phase p takes exactly the seconds of phases p.., and ends at the wrap. |
| RootBreathing.ActiveInCycle | src/features/Breathing/BreathingExercise.jsx:56-66 | Without 0-second phases, the session is active at every second before the wrap. |
| RootBreathing.CyclesEnd | src/features/Breathing/BreathingExercise.jsx:112-120 | Without 0-second phases, cycles c.. take their full length and end stopped. |
| RootBreathing.CyclesActive | src/features/Breathing/BreathingExercise.jsx:112-120 | Without 0-second phases, the session is active at every second before cycles c.. are over. |
| RootBreathing.RemainingCycles | src/features/Breathing/BreathingExercise.jsx:112-120 | Without 0-second phases, cycles c.. take their full length, end stopped, and are active at every earlier second. |
| RootBreathing.SessionLength | src/features/Breathing/BreathingExercise.jsx:107-121 | A technique without 0-second phases runs exactly cycles × sum(pattern) seconds, then stops at phase 0 and cycle 0. |
| RootBreathing.CatalogSessions | src/features/Breathing/BreathingExercise.jsx:5-17 | From `Start`, 4-7-8 stops after 76 s and Box after 80 s. That is every activation that finds time left: after a reset, a technique change or a finished session. |
| RootBreathing.Activate | src/features/Breathing/BreathingExercise.jsx:47-66 | Activation keeps this copy's invariant. With the paused `timeLeft` above 0 it yields `Start`. With `timeLeft` 0 it yields `nextPhase` from the paused phase in cycle 0. |
| RootBreathing.FromSecondPhase | src/features/Breathing/BreathingExercise.jsx:107-121 | Without 0-second phases, a session begun on phase 1 of cycle 0 runs the full session minus the first phase's seconds, stays active until then, and stops. |
| RootBreathing.FirstSessionSkipsInhale | src/features/Breathing/BreathingExercise.jsx:47-66 | The first Start after mount, with `timeLeft` 0 on 4-7-8, begins on the 7-second Hold. That session is active for 72 s and then stops. |
| RootBreathing.DeepBreathingResume | src/features/Breathing/BreathingExercise.jsx:47-66 | Restarting Deep Breathing paused on its stalled Hold moves to the Exhale in cycle 0. Cycle 1 begins 5 s later, and 5 s after that it stalls on the Hold again for good. |
| RootBreathing.DeepBreathingStalls | src/features/Breathing/BreathingExercise.jsx:56-66 | Deep Breathing reaches its 0-second Hold after 5 s. It stays there, active with `timeLeft` 0 and cycle 0, for every later second. |
| RootBreathing.BreathingExercise.constructor | src/features/Breathing/BreathingExercise.jsx:27-34 | The component starts inactive on technique 0, at phase 0, cycle 0, `timeLeft` 0 and circle 100. |
| RootBreathing.BreathingExercise.PhaseLabel | src/features/Breathing/BreathingExercise.jsx:44 | `phases[currentPhase % 4]` is always `phases[currentPhase]`. |
| RootBreathing.BreathingExercise.CycleShown | src/features/Breathing/BreathingExercise.jsx:166 | "Cycle n of N" always has 1 ≤ n ≤ N. |
| RootBreathing.BreathingExercise.NextPhase | src/features/Breathing/BreathingExercise.jsx:107-121 | The fields become `Breathing.NextPhase` of the old countdown. |
| RootBreathing.BreathingExercise.Toggle | src/features/Breathing/BreathingExercise.jsx:123-125 | Pausing keeps the countdown. Activating yields `Activate` of the paused countdown: `Start` when time is left. When the paused `timeLeft` is 0, it advances one phase from the paused phase, in cycle 0. |
| RootBreathing.BreathingExercise.Reset | src/features/Breathing/BreathingExercise.jsx:127-132 | The session becomes inactive, at phase 0, cycle 0 and `pattern[0]`, with circle 100. |
| RootBreathing.BreathingExercise.ChangeTechnique | src/features/Breathing/BreathingExercise.jsx:134-137 | Selects the technique and resets it. `timeLeft` shows the previous technique's first duration. |
| RootBreathing.BreathingExercise.Tick | src/features/Breathing/BreathingExercise.jsx:56-66 | One second moves the fields exactly as `RootBreathing.OneSecond` does. |
| RootBreathing.BreathingExercise.Frame | src/features/Breathing/BreathingExercise.jsx:68-92 | One animation frame sets the circle to `CircleSize` (span 100) for Inhale and Exhale, and leaves it for Hold. It stays within [100, 200], and rises while inhaling and falls while exhaling. |
| FrontendWater.GlassesOn | frontend/src/features/WaterTracker/WaterTracker.jsx:212 | `weeklyData[dateKey] \|\| 0`: the stored count, or 0 for a day with no entry. `DayPercent` states the bar it gives. |
| FrontendWater.DayPercent | frontend/src/features/WaterTracker/WaterTracker.jsx:212-213 | A day without an entry reads as 0 %. The bar is always within [0, 100], and it is full exactly when the day has at least 8 glasses. |
| FrontendWater.Add | frontend/src/features/WaterTracker/WaterTracker.jsx:31-44 | Below the goal: one more glass, with today's entry set to the new count. At the goal: nothing changes. No other day changes, and the count stays within the goal. |
| FrontendWater.Remove | frontend/src/features/WaterTracker/WaterTracker.jsx:46-59 | Above 0: one glass less, with today's entry set to the new count. At 0: nothing changes. No other day changes. |
| FrontendWater.AddThenRemove | frontend/src/features/WaterTracker/WaterTracker.jsx:31-59 | Add then remove from x < goal restores the count to x, with today's entry x. |
| FrontendWater.RemoveThenAdd | frontend/src/features/WaterTracker/WaterTracker.jsx:31-59 | Remove then add from 0 < x ≤ goal restores the count to x, with today's entry x. |
| FrontendWater.ButtonsMatchGuards | frontend/src/features/WaterTracker/WaterTracker.jsx:135-144 | Each button is disabled exactly when its handler would change nothing. |
| FrontendWater.WaterTracker.constructor | frontend/src/features/WaterTracker/WaterTracker.jsx:16-26 | The component starts at 3 glasses with the sample week. |
| FrontendWater.WaterTracker.AddGlass | frontend/src/features/WaterTracker/WaterTracker.jsx:31-44 | The state becomes `Add` of the old state, and the count stays in [0, 8]. |
| FrontendWater.WaterTracker.RemoveGlass | frontend/src/features/WaterTracker/WaterTracker.jsx:46-59 | The state becomes `Remove` of the old state, and the count stays in [0, 8]. |
| FrontendWater.WaterTracker.Slots | frontend/src/features/WaterTracker/WaterTracker.jsx:155-166 | Of the 8 slots, exactly `currentIntake` are drawn filled. |
| RootWater.Add | src/features/WaterTracker/WaterTracker.jsx:27-31 | Increments by one exactly when the count is below the goal. Otherwise nothing changes. |
| RootWater.Remove | src/features/WaterTracker/WaterTracker.jsx:33-37 | Decrements by one exactly when the count is above 0. Otherwise nothing changes. |
| RootWater.RoundTrips | src/features/WaterTracker/WaterTracker.jsx:27-37 | Add then remove from x < goal returns to x. Remove then add from 0 < x ≤ goal returns to x. |
| RootWater.AddTimesSaturates | src/features/WaterTracker/WaterTracker.jsx:27-31 | k presses of "+" from n ≤ goal reach min(n + k, goal). |
| RootWater.WaterTracker.constructor | src/features/WaterTracker/WaterTracker.jsx:12-22 | The component starts at 3 glasses with the sample week. The week is a constant field that no handler writes. |
| RootWater.WaterTracker.AddGlass | src/features/WaterTracker/WaterTracker.jsx:27-31 | The count becomes `Add` of the old count, and stays in [0, 8]. |
| RootWater.WaterTracker.RemoveGlass | src/features/WaterTracker/WaterTracker.jsx:33-37 | The count becomes `Remove` of the old count, and stays in [0, 8]. |
| RootWater.WaterTracker.DayPercent | src/features/WaterTracker/WaterTracker.jsx:101-102 | A missing day reads as 0 %. The bar is within [0, 100], and full exactly when the day has at least 8 glasses. |
| RootWater.WaterTracker.Slots | src/features/WaterTracker/WaterTracker.jsx:71-76 | Exactly `currentIntake` of the 8 slots are filled. |
| Dashboard.AddWater | src/pages/Dashboard.jsx:18-20 | Increments by one exactly when below 8. At 8 it is a no-op. It never decreases. |
| Dashboard.PressesSaturate | src/pages/Dashboard.jsx:18-20 | k presses from n ≤ 8 reach min(n + k, 8). |
| Dashboard.Dashboard.constructor | src/pages/Dashboard.jsx:7-10 | No mood, 3 glasses, 7.5 h of sleep and 840 kcal. The three stats without a handler are constant fields. |
| Dashboard.Dashboard.CanAdd | src/pages/Dashboard.jsx:75 | The "+1" button is enabled exactly when a press changes the count. |
| Dashboard.Dashboard.AddWaterGlass | src/pages/Dashboard.jsx:18-20 | The count becomes `AddWater` of the old count, and stays in [3, 8]. |
| Dashboard.Dashboard.Segments | src/pages/Dashboard.jsx:82-88 | Exactly `waterIntake` of the 8 segments are filled. |
| Dashboard.Dashboard.SleepBar | src/pages/Dashboard.jsx:112 | The sleep bar is 75 % wide. |
| Dashboard.Dashboard.CalorieBar | src/pages/Dashboard.jsx:139 | The calorie bar is 42 % wide. |
| Gauge.Percent | frontend/src/features/WaterTracker/WaterTracker.jsx:213 | `min(100, part / whole · 100)` is at most 100. It is exactly 100 when part ≥ whole, and otherwise the exact ratio. It is non-negative for a non-negative part. |
| Gauge.PercentMonotone | frontend/src/features/WaterTracker/WaterTracker.jsx:213 | The bar grows with the part. |
| Gauge.Slots | frontend/src/features/WaterTracker/WaterTracker.jsx:155-166 | Slot i is filled exactly when i < count. |
| Gauge.FilledSlots | frontend/src/features/WaterTracker/WaterTracker.jsx:155-166 | A row of n slots has exactly min(count, n) filled. |
| MealTracker.Total | frontend/src/features/MealTracker/MealTracker.jsx:24-27 | The reduce summing one nutrient over the meals. `TotalConcat`, `TotalPermutation`, `TotalAfterAdd` and `TotalAfterDelete` state what it means: additive over concatenation, independent of order, and changed by exactly the meals added or removed. |
| MealTracker.Complete | frontend/src/features/MealTracker/MealTracker.jsx:37-44 | The add gate: name, time and the four numeric fields are all non-empty strings. `MealTracker.HandleAddMeal` states that a form failing it changes nothing. |
| MealTracker.FromForm | frontend/src/features/MealTracker/MealTracker.jsx:45-55 | The added meal: the clock's id, the form's type, name and time, and `parseInt` of the four numeric fields. `Text.ParseIntOfDecimal` states that each number typed in decimal is read back. |
| MealTracker.TotalConcat | frontend/src/features/MealTracker/MealTracker.jsx:24-27 | The total of a concatenation is the sum of the totals. |
| MealTracker.TotalPermutation | frontend/src/features/MealTracker/MealTracker.jsx:24-27 | Any reordering of the meals has the same totals. |
| MealTracker.TotalSplit | frontend/src/features/MealTracker/MealTracker.jsx:24-27 | A meal contributes its amount to the total wherever it sits. |
| MealTracker.TotalAfterAdd | frontend/src/features/MealTracker/MealTracker.jsx:45-55 | Appending a meal raises each total by exactly that meal's amount. |
| MealTracker.Without | frontend/src/features/MealTracker/MealTracker.jsx:69-71 | The filter never lengthens the list. |
| MealTracker.WithId | frontend/src/features/MealTracker/MealTracker.jsx:69-71 | The meals a delete removes are no more than the meals, and each of them is one of the meals and has the deleted id. |
| MealTracker.WithoutMembers | frontend/src/features/MealTracker/MealTracker.jsx:69-71 | A meal survives a delete exactly when it is in the list with another id. A meal is removed exactly when its id is the deleted one. |
| MealTracker.WithoutConcat | frontend/src/features/MealTracker/MealTracker.jsx:69-71 | The filter works piece by piece, so survivors keep their order. |
| MealTracker.WithoutAbsent | frontend/src/features/MealTracker/MealTracker.jsx:69-71 | Deleting an id no meal has leaves the list unchanged. |
| MealTracker.TotalAfterDelete | frontend/src/features/MealTracker/MealTracker.jsx:69-71 | A delete lowers each total by exactly the amounts of the meals it removes. |
| MealTracker.SortedByTime | frontend/src/features/MealTracker/MealTracker.jsx:347-348 | The render-time sort is ascending by time and is a permutation, so every total is unchanged. |
| MealTracker.CalorieBar | frontend/src/features/MealTracker/MealTracker.jsx:151 | The calorie bar is at most 100. It is exactly 100 when the total reaches the 2000 kcal goal, and non-negative for a non-negative total. |
| MealTracker.SetField | frontend/src/features/MealTracker/MealTracker.jsx:246-308 | An input's onChange sets its own field, whichever of the seven it is, and leaves the other six as they were. |
| MealTracker.SetFieldLastWins | frontend/src/features/MealTracker/MealTracker.jsx:246-308 | A later edit of the same field replaces an earlier one. Edits of two different fields commute. |
| MealTracker.MealTracker.constructor | frontend/src/features/MealTracker/MealTracker.jsx:8-21 | The component starts with the two sample meals, the empty form and the form closed. |
| MealTracker.MealTracker.Replace | frontend/src/features/MealTracker/MealTracker.jsx:45-55 | `setMeals`: the meals become the given list in a new array, and the form is untouched. |
| MealTracker.MealTracker.HandleAddMeal | frontend/src/features/MealTracker/MealTracker.jsx:36-67 | An incomplete form changes nothing. A complete form appends exactly one meal, with its numbers parsed and an id from the clock. The form then resets to breakfast with empty fields, and closes. |
| MealTracker.MealTracker.HandleDeleteMeal | frontend/src/features/MealTracker/MealTracker.jsx:69-71 | The meals become `Without` of the old meals, and the form is untouched. |
| MealTracker.MealTracker.OpenForm | frontend/src/features/MealTracker/MealTracker.jsx:221 | Opens the form. |
| MealTracker.MealTracker.CancelForm | frontend/src/features/MealTracker/MealTracker.jsx:315 | Closes the form and keeps its contents. |
| MealTracker.MealTracker.EditForm | frontend/src/features/MealTracker/MealTracker.jsx:246-308 | The form becomes `SetField` of the old form. |
| MealTracker.MealTracker.SortForDisplay | frontend/src/features/MealTracker/MealTracker.jsx:347-348 | The state array is reordered in place into the stable ascending-time sort of its old contents. |
| Sorting.InOrder | frontend/src/features/MealTracker/MealTracker.jsx:348 | The comparator returns at most 0: the keys are in `Leq` order, reversed for a descending sort. `InOrderTotal` states that one of two elements always may precede the other. |
| Sorting.InOrderTotal | frontend/src/features/MealTracker/MealTracker.jsx:348 | Of two elements, at least one may precede the other. |
| Sorting.Insert | frontend/src/features/MealTracker/MealTracker.jsx:348 | Inserting one element lengthens the sequence by one. |
| Sorting.InsertPermutes | frontend/src/features/MealTracker/MealTracker.jsx:348 | Insertion adds exactly the new element and loses nothing. |
| Sorting.InsertSorted | frontend/src/features/MealTracker/MealTracker.jsx:348 | Insertion into a sorted sequence keeps it sorted. |
| Sorting.SortBy | frontend/src/features/MealTracker/MealTracker.jsx:347-348 | The stable sort by key is sorted, has the same length, and is a permutation of its input. |
| Sorting.SortBySorted | frontend/src/features/MealTracker/MealTracker.jsx:347-348 | Sorting an already sorted sequence leaves it unchanged. |
| Sorting.SortByIdempotent | frontend/src/features/MealTracker/MealTracker.jsx:347-348 | Sorting twice is sorting once. |
| Sorting.SortInPlace | frontend/src/features/MealTracker/MealTracker.jsx:347-348 | The array's contents become `SortBy` of its old contents. |
| Sorting.InsertLast | frontend/src/features/MealTracker/MealTracker.jsx:348 | One insertion-sort pass places the i-th element into the sorted prefix. |
| Sorting.SortByStep | frontend/src/features/MealTracker/MealTracker.jsx:348 | Sorting one more element is inserting it into the sorted prefix. |
| Sorting.InsertShift | frontend/src/features/MealTracker/MealTracker.jsx:348 | Insertion passes over an element the new one must precede. |
| Sorting.InsertStop | frontend/src/features/MealTracker/MealTracker.jsx:348 | Insertion stops behind an element the new one may follow. |
| Text.TrimStart | src/features/Journal/Journal.jsx:60 | The result is no longer than the input and is empty or starts with a non-space. |
| Text.TrimStartSplits | src/features/Journal/Journal.jsx:60 | The result is the suffix of the input left after a whitespace-only prefix. |
| Text.TrimEnd | src/features/Journal/Journal.jsx:60 | The result is no longer than the input and is empty or ends with a non-space. |
| Text.TrimEndSplits | src/features/Journal/Journal.jsx:60 | The result is the prefix of the input left before a whitespace-only suffix. |
| Text.Trim | src/features/Journal/Journal.jsx:60 | `trim()` leaves a string that is empty or starts and ends with a non-space. |
| Text.TrimEmptyIffBlank | src/features/Journal/Journal.jsx:60 | `s.trim()` is empty exactly when s is all whitespace. |
| Text.Leq | frontend/src/features/MealTracker/MealTracker.jsx:348 | `localeCompare(a, b) <= 0` as code-unit lexicographic order. `LeqRefl`, `LeqTotal`, `LeqTrans` and `LeqAntisym` state that it is a total order. |
| Text.LeqRefl | frontend/src/features/MealTracker/MealTracker.jsx:348 | The string order is reflexive. |
| Text.LeqTotal | frontend/src/features/MealTracker/MealTracker.jsx:348 | The string order is total. |
| Text.LeqTrans | frontend/src/features/MealTracker/MealTracker.jsx:348 | The string order is transitive. |
| Text.LeqAntisym | frontend/src/features/MealTracker/MealTracker.jsx:348 | The string order is antisymmetric. |
| Text.DigitRun | frontend/src/features/MealTracker/MealTracker.jsx:50-53 | The length of the maximal leading run of decimal digits. |
| Text.DigitValue | frontend/src/features/MealTracker/MealTracker.jsx:50-53 | A digit's value is below 10. |
| Text.Decimal | frontend/src/features/MealTracker/MealTracker.jsx:50-53 | The decimal rendering is a non-empty digit string. |
| Text.DigitsValueOfDecimal | frontend/src/features/MealTracker/MealTracker.jsx:50-53 | The digits of n read back as n. |
| Text.DigitRunOfDigits | frontend/src/features/MealTracker/MealTracker.jsx:50-53 | The run of an all-digit string is the whole string. |
| Text.ParseInt | frontend/src/features/MealTracker/MealTracker.jsx:50-53 | `parseInt` of a numeric field: an optional sign, then the value of the leading digit run. `ParseIntOfDecimal` states that it reads back every integer written in decimal. |
| Text.ParseIntOfDecimal | frontend/src/features/MealTracker/MealTracker.jsx:50-53 | `parseInt` reads back every integer written in decimal, negative ones with a leading minus. |
| Journal.Edited | src/features/Journal/Journal.jsx:66-67 | `{ ...entry, ...newEntry, date: today }`: the entry keeps its id and takes the form's fields and today's date. `ApplyEdit` and `SavedEntriesCases` state where it is applied. |
| Journal.ApplyEdit | src/features/Journal/Journal.jsx:63-70 | Length and ids are kept. Exactly the entries with the edited id take the form's title, content and mood and today's date. Every other entry is unchanged. |
| Journal.EditProperties | src/features/Journal/Journal.jsx:63-70 | Editing an id no entry has changes nothing. Applying the same edit twice is applying it once. |
| Journal.Without | src/features/Journal/Journal.jsx:102-103 | The filter never lengthens the list. |
| Journal.WithoutMembers | src/features/Journal/Journal.jsx:102-103 | An entry survives a delete exactly when it is in the list with another id. |
| Journal.WithoutConcat | src/features/Journal/Journal.jsx:102-103 | The filter works piece by piece, so the survivors keep their order. |
| Journal.WithoutAbsent | src/features/Journal/Journal.jsx:102-103 | Deleting an id no entry has leaves the list unchanged. |
| Journal.Savable | src/features/Journal/Journal.jsx:60 | The save gate `title.trim() && content.trim()`. `SavableIffNotBlank` states its meaning: neither field is all whitespace. |
| Journal.SavableIffNotBlank | src/features/Journal/Journal.jsx:60 | The save gate passes exactly when neither the title nor the content is all whitespace. |
| Journal.Journal.constructor | src/features/Journal/Journal.jsx:8-39 | The journal starts with the given entries, nothing selected, the form closed, and a blank form with mood 😊. |
| Journal.Journal.CreateNewEntry | src/features/Journal/Journal.jsx:49-57 | Opens a blank form with mood 😊 and clears the selection. The entries and view mode are untouched. |
| Journal.Journal.CanSave | src/features/Journal/Journal.jsx:341 | The Save button is enabled exactly when neither the title nor the content is blank. |
| Journal.SavedEntries | src/features/Journal/Journal.jsx:59-84 | The entry list after saveEntry. `SavedEntriesCases` states its three cases, and `Journal.Journal.SaveEntry` is proved to produce it. |
| Journal.SavedEntriesCases | src/features/Journal/Journal.jsx:59-84 | A blank title or content leaves the list as it was. With an entry selected, the list keeps its length and ids, and exactly the entries with that id take the form's fields and today's date. Otherwise one new entry is put in front of the unchanged list. It is dated today, takes the clock's id and holds the untrimmed form fields. |
| Journal.Journal.SaveEntry | src/features/Journal/Journal.jsx:59-84 | The list becomes `SavedEntries` of the old list, the old selection and the form. When the form is savable, the form closes and the selection clears. Otherwise both stay as they were. |
| Journal.Journal.EditEntry | src/features/Journal/Journal.jsx:86-95 | Selects the entry and loads its title and content, and its mood or 😊 when that is empty. Opens the form and leaves view mode. |
| Journal.Journal.ViewEntry | src/features/Journal/Journal.jsx:97-100 | Selects the entry and shows it. |
| Journal.Journal.DeleteEntry | src/features/Journal/Journal.jsx:102-108 | The list becomes `Without` of the old list. Deleting the selected entry clears the selection and view mode. Any other selection is untouched. |
| Journal.Journal.CloseForm | src/features/Journal/Journal.jsx:263 | Closes the form. |
| Journal.Journal.SetTitle | src/features/Journal/Journal.jsx:281 | Sets the form's title and nothing else. |
| Journal.Journal.SetContent | src/features/Journal/Journal.jsx:324 | Sets the form's content and nothing else. |
| Journal.Journal.SetMood | src/features/Journal/Journal.jsx:299 | Sets the form's mood and nothing else. |
| Moods.Record | frontend/src/features/MoodTracker/MoodTracker.jsx:46-49 | The date gains or replaces its entry. Every other date keeps its own, and no other date is added. |
| Moods.RecordLastWins | src/features/MoodTracker/MoodTracker.jsx:21-27 | The last selection for a date wins, and re-selecting the same mood is idempotent. |
| Moods.RecordCommutes | src/features/MoodTracker/MoodTracker.jsx:21-27 | Selections on two different dates commute. |
| RootMood.MoodTracker.constructor | src/features/MoodTracker/MoodTracker.jsx:14-16 | The tracker starts with no mood, an empty history and today selected. No mood button is ringed. |
| RootMood.MoodTracker.HandleMoodSelect | src/features/MoodTracker/MoodTracker.jsx:21-27 | Selects the mood, so exactly the buttons with its label are ringed. Records it under the selected key: the cell keyed by the selected key now shows its emoji, and every other cell is unchanged. The selected key stays. |
| RootMood.MoodTracker.SelectDate | src/features/MoodTracker/MoodTracker.jsx:62 | A click on a day selects it. |
| RootMood.MoodTracker.CalendarCell | src/features/MoodTracker/MoodTracker.jsx:57-77 | A cell shows the emoji stored under its date key, or nothing exactly when the key is absent. |
| RootMood.MoodTracker.IsHighlighted | src/features/MoodTracker/MoodTracker.jsx:42 | A mood button is ringed exactly when a mood is selected and has its label. `HandleMoodSelect` and the constructor state which buttons that rings. |
| DateKeys.CellKeyShift | src/features/MoodTracker/MoodTracker.jsx:18-19 | A cell's key is its local day number plus a constant of the zone, so different days have different keys. |
| DateKeys.CellKeyEastOfUtc | src/features/MoodTracker/MoodTracker.jsx:57 | East of UTC, each cell is keyed by the day before its own. |
| DateKeys.SelectedKeyShowsTomorrow | src/features/MoodTracker/MoodTracker.jsx:16-26 | East of UTC, once the local time reaches the offset, the current instant's key is tomorrow's cell key and not today's. |
| DateKeys.NoonInUtcPlusTwo | src/features/MoodTracker/MoodTracker.jsx:16-26 | Noon in UTC+2 on a given day carries the next day's cell key. |
| DateKeys.SelectedDayKeyMatchesCell | src/features/MoodTracker/MoodTracker.jsx:57 | The corrected key, that of the selected day's local midnight, equals a cell's key exactly when the cell is that day's, in every zone. |
| FrontendMood.PastNotes | frontend/src/features/MoodTracker/MoodTracker.jsx:301-302 | The listed notes sorted by `b[0].localeCompare(a[0])`: a permutation of the entries, in descending date-key order. |
| FrontendMood.PastNotesNewestFirst | frontend/src/features/MoodTracker/MoodTracker.jsx:290-302 | The past-notes list shows every stored note and nothing else, each date key no greater than the one above it. |
| FrontendMood.DescendingEverywhere | frontend/src/features/MoodTracker/MoodTracker.jsx:302 | In the descending list, any later note's date key is no greater than any earlier one's. |
| FrontendMood.MoodTracker.constructor | frontend/src/features/MoodTracker/MoodTracker.jsx:17-42 | Mounting on today loads the stored mood map. It selects today's stored mood and shows today's stored note when each is present. |
| FrontendMood.MoodTracker.Load | frontend/src/features/MoodTracker/MoodTracker.jsx:30-42 | The in-memory map becomes the stored one. The mood and note change only when the store holds one for the selected key, and an empty note counts as none. |
| FrontendMood.MoodTracker.SelectDate | frontend/src/features/MoodTracker/MoodTracker.jsx:238 | Selecting the same key changes nothing else. Selecting a new key runs the load. |
| FrontendMood.MoodTracker.HandleMoodSelect | frontend/src/features/MoodTracker/MoodTracker.jsx:44-52 | Selects the mood and records it under the selected key. The stored map equals the in-memory one. |
| FrontendMood.MoodTracker.ToggleMoodNote | frontend/src/features/MoodTracker/MoodTracker.jsx:174 | Flips the note editor. |
| FrontendMood.MoodTracker.SetMoodNote | frontend/src/features/MoodTracker/MoodTracker.jsx:195 | Sets the note text. |
| FrontendMood.MoodTracker.HandleMoodNoteSave | frontend/src/features/MoodTracker/MoodTracker.jsx:54-61 | Stores the note under the selected date, keeps every other date's note, and hides the editor. |
| FrontendMood.MoodTracker.HandleDeleteMoodNote | frontend/src/features/MoodTracker/MoodTracker.jsx:67-74 | On confirmation, removes exactly that date's note and flips the editor. Without confirmation, nothing changes. |
| FrontendMood.MoodTracker.HandleEditMoodNote | frontend/src/features/MoodTracker/MoodTracker.jsx:76-79 | Opens the inline editor on the note with its text. |
| FrontendMood.MoodTracker.SetEditingText | frontend/src/features/MoodTracker/MoodTracker.jsx:323 | Sets the inline editor's text. |
| FrontendMood.MoodTracker.HandleSaveEdit | frontend/src/features/MoodTracker/MoodTracker.jsx:81-88 | Stores the edited text under that date and keeps the other notes. Clears the inline editor and flips the note editor. |
| FrontendMood.MoodTracker.HandleCancelEdit | frontend/src/features/MoodTracker/MoodTracker.jsx:90-93 | Clears the inline editor. The store is untouched. |

## Left out

- Timer and animation scheduling are not modelled. `setInterval`, `requestAnimationFrame`, effect ordering and cleanup, and stale-closure interleavings within one commit are all left out. A tick, a frame or a click is one sequential method call.
  - Two effect runs in one commit are modelled where their order decides the outcome: activating the src/ breathing copy runs `startBreathing` and then the countdown effect, whose `nextPhase` from the paused phase wins when the paused `timeLeft` is 0 (`RootBreathing.Activate`).
- The order between the frontend/ interval updater's `return 0` and the `setTimeLeft(nextDuration)` queued inside `nextPhase` is not pinned down: it depends on how React handles a state update made from inside an updater. The model takes the new phase's duration. While a session runs, the countdown effect sets the duration again on every phase change, so only the stopped state is affected: after the last cycle the page may show 0 where the model has `pattern[0]`.
- Neither breathing copy can resume a paused session, and neither can the model. In frontend/, re-activating restarts at phase 0 and cycle 0. In src/, it does the same when the paused `timeLeft` is above 0; otherwise it moves one phase on from the paused phase, in cycle 0.
- The browser's key-value store and JSON serialisation are two map fields, assumed to round-trip losslessly.
- date-fns and `Date.now()` are not modelled. Their results are string and integer parameters.
- In the mood trackers, the selected date key is a string field, and the model takes it to be the key of the selected day's own cell. `DateKeys` models `toISOString` day keys separately and shows where that fails: on mount, the selected date is the current instant. In a zone east of UTC, its key is the key of tomorrow's cell (see Findings).
- The week navigation `navigateWeek`/`currentWeek` and the seven-day calendar ranges are not modelled. They are date arithmetic only.
- `Object.entries` order: the listed notes are a parameter, related to the stored map by `FrontendMood.Lists`.
- The journal's three sample entries are the constructor's parameter rather than literals.
- Text.ParseInt: leading whitespace, other radices and `NaN` are not modelled. A field with no leading digits reads as 0, where JavaScript gives `NaN`.
- Text.IsSpace: lists the ASCII blanks, U+00A0, U+FEFF, U+2028 and U+2029. It leaves out the other Unicode space separators that `trim()` also removes.
- Text.Leq: `localeCompare` is modelled as code-unit lexicographic order. The time and date keys compared are digit strings in a fixed format, where the two agree.
- Floating point: percentages and circle sizes use exact reals, so JavaScript rounding is not modelled.
- Presentation is not modelled: JSX, framer-motion variants, themes, colours, icons and the frame rate.
- Not part of this model: the sleep tracker, the two home pages, the layout and routes, and the backend.
- FrontendBreathing.Cyclic: the frontend/ breathing lemmas hold only for techniques with at least two phases, as every catalog entry has. With a one-phase pattern, `nextPhase` returns to the same phase index, the countdown effect does not re-run, and the countdown freezes after the first phase. The model does not capture that freeze.
- FrontendBreathing.Start: states only the invariant, not a closed form. Its value is `Enter(t, 0, 0)`, and `DeepBreathingSkipsHold` and `FourSevenEight` give it for catalog techniques.
- RootBreathing.Start: states only the invariant. A one-phase, one-cycle technique with a 0-second phase stops at once, so activity cannot be promised in general.

## Findings

| source | as written | input that shows it | evidently intended | confidence | as-written member | corrected member |
|---|---|---|---|---|---|---|
| src/features/Breathing/BreathingExercise.jsx:56-66 | The countdown effect only counts down and advances. Entering a 0-second phase sets `timeLeft` to 0, which it already was, so the effect's keys do not change and the session never leaves that phase. | Select Deep Breathing `[5, 0, 5]`, start, and wait 5 seconds. The session sits on Hold with 0 seconds and never counts a cycle. Pausing and starting again only reaches cycle 1 before the next stall (`RootBreathing.DeepBreathingResume`), so the session never completes. | Pass over the 0-second Hold, as the frontend/ copy does, and finish 6 cycles in 60 seconds. | high, not executed | RootBreathing.DeepBreathingStalls | FrontendBreathing.DeepBreathingSkipsHold |
| src/features/Breathing/BreathingExercise.jsx:47-66 | Activation runs `startBreathing` and then the countdown effect in the same commit. The effect sees the paused `timeLeft`; when that is 0, its `nextPhase` from the paused phase is queued last and overrides the restart. | Open the page (`timeLeft` starts at 0) and press Start on 4-7-8 Breathing. The session begins on the 7-second Hold and lasts 72 s. | Begin on the 4-second Inhale, as `startBreathing` sets and the frontend/ copy does, and run 76 s. | high, not executed | RootBreathing.FirstSessionSkipsInhale | FrontendBreathing.FourSevenEight |
| src/features/MoodTracker/MoodTracker.jsx:16-26 | The selected date starts as `new Date()`, the current instant, and a mood is recorded under that instant's UTC day. The calendar cells are keyed by the UTC day of each day's local midnight. | In UTC+2 at noon, pick a mood before clicking a day. It is stored under the key of tomorrow's cell, so the emoji shows under tomorrow (`DateKeys.NoonInUtcPlusTwo`). | Key the selected date by its local day's midnight, so the mood shows under the day it was picked on. | high, not executed | DateKeys.SelectedKeyShowsTomorrow | DateKeys.SelectedDayKeyMatchesCell |
