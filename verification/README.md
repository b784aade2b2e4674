# Countdown timer store — Dafny model

This project models the core of a mobile countdown-timer app. That core is the timer
store (`store/timerStore.ts`), the timer records (`types/timer.ts`) and the duration
logic of the edit screen (`app/edit.tsx`).

The store holds a list of timers and mirrors it into on-device storage. Its actions are
add, remove, clear completed, delete all, toggle (start/pause), reset, update,
set-sort-key and set-search-query. A one-second interval counts running timers down,
stamps their completion time and raises completion alerts (haptic pulse and sound). The
edit screen does three things:
- it splits a duration into hours, minutes and seconds;
- it filters the three number boxes;
- it validates the form before calling `updateTimer`.

Everything is modelled as pure functions over immutable datatypes:

- `wrappers.dfy` (`Wrappers`): `Option`, used for fields that may be `undefined`.
- `seqs.dfy` (`Seqs`): an order-preserving `Filter`, fully characterised (see below).
- `text.dfy` (`Text`): the digit filter, decimal `toString`/value round trip, and
  ECMAScript `trim` with its exact white-space set.
- `timer_types.dfy` (`TimerTypes`): `Timer`, `CompletedTimer`, `CreateTimerInput`, the
  sort key and `TimerPatch` (a `Partial<Timer>`).
- `timer_list.dfy` (`TimerList`): the per-timer and list transformations behind each
  action.
- `tick.dfy` (`Tick`): one run of the interval callback over the list, and its alerts.
- `timer_store.dfy` (`TimerStore`): the store state and every action, including the
  write-then-publish protocol. It also defines `Step`/`Run` over any sequence of actions
  and the invariants they keep.
- `edit_screen.dfy` (`EditScreen`): the edit form, its filters and `handleUpdate`.
- `scenarios.dfy` (`Scenarios`): concrete action sequences in which timers count out.

`Filter` is characterised completely: its result is a subsequence of the input that
holds every element passing the test, with its multiplicity, and nothing else.

The store state is `State(timers, isLoading, sortBy, searchQuery, stored,
intervalActive)`:
- `stored` is the storage mirror; `None` means nothing has been saved.
- `intervalActive` stands for the module-level `intervalId`.
- Clock readings are parameters.
- A `fails` flag says whether the storage call of an action throws.
- Completion alerts are returned as the list of alerted timer ids.

## Behaviour of the code worth knowing

- A failed storage write skips `set`, so the list and storage stay as they were
  (store/timerStore.ts:63-68 and the same pattern in every mutation).
- The tick callback has no error handler. A failed write there abandons the callback:
  no publish, no alerts, and the interval is not cleared (store/timerStore.ts:134-156).
- Every successful toggle starts the interval when none is scheduled, even when the
  toggle leaves nothing running (store/timerStore.ts:116-158).
- A finished timer keeps `isRunning == true`. So the interval stops only when no timer
  is flagged running (store/timerStore.ts:123-131, 153-156; `FinishedTimerKeepsInterval`,
  `SingleTimerRunsOut`).
- A finished timer that is still flagged running is alerted for again on every tick in
  which another timer counts down (store/timerStore.ts:134-149;
  `FinishedTimerAlertsAgain`, `TwoTimersAlertRepeatedly`).
- Loading restores timers saved while running but does not schedule the interval.
  Such timers stay frozen until some toggle (store/timerStore.ts:34-46, 117;
  `LoadedRunningTimerStaysFrozen`).
- Running, paused and finished are not exclusive: a finished timer is "running" at
  zero, and a paused timer keeps `isPaused` after it is started again
  (store/timerStore.ts:106-107). The model states what the code does keep: remaining
  time never exceeds the duration (`StepKeepsBounded`).

## Model

| member | source | states |
|---|---|---|
| TimerTypes.AsCompleted | types/timer.ts:14-21 | A timer has a completed view exactly when it has a completion time; the view carries that time and the timer's id, name, description, duration and colour |
| TimerList.NewTimer | store/timerStore.ts:50-61 | A created timer has duration = remaining time = hours*3600 + minutes*60 + seconds, is neither running nor paused, has no completion time, and its id is the decimal text of the clock reading |
| TimerStore.AddTimer | store/timerStore.ts:48-69 | A successful add appends exactly one new timer after the unchanged old list and saves it; a failed write changes nothing; loading flag, sort key, search text and interval are kept |
| TimerList.WithoutId | store/timerStore.ts:73 | Removal keeps, in original order, exactly the timers whose id differs, each with its multiplicity; an absent id leaves the list as it was |
| TimerStore.RemoveTimer | store/timerStore.ts:71-79 | removeTimer publishes and saves the list without the id, order kept; a failed write changes nothing; loading flag, sort key, search text and interval are kept |
| TimerList.Pending | store/timerStore.ts:83 | Clearing keeps, in order, exactly the timers with time left, whatever their flags |
| TimerList.PendingIdempotent | store/timerStore.ts:83 | Clearing finished timers a second time removes nothing more |
| TimerStore.ClearCompleted | store/timerStore.ts:81-89 | clearCompleted publishes and saves exactly the timers with remaining time > 0, in order; a failed write changes nothing; loading flag, sort key, search text and interval are kept |
| TimerStore.DeleteAllTimers | store/timerStore.ts:91-98 | deleteAllTimers leaves the empty list both published and saved, or changes nothing when the write fails; loading flag, sort key, search text and interval are kept |
| TimerList.MapMatching | store/timerStore.ts:102-111 | The id-keyed `.map` of toggle, reset and update: same length and order, the function applied to exactly the timers with the id, the others unchanged |
| TimerList.Toggle | store/timerStore.ts:104-108 | Toggling flips isRunning, marks a running timer paused, leaves the paused flag otherwise, and keeps settings, remaining time and completion time |
| TimerList.ToggleTwice | store/timerStore.ts:104-108 | Two toggles restore the timer except that it is now marked paused; a paused flag is never cleared by toggling |
| TimerList.ToggleMatchingTwice | store/timerStore.ts:102-111 | Toggling one id twice restores every timer's running flag; matching timers end up paused, others untouched |
| TimerStore.ToggleTimer | store/timerStore.ts:100-117 | A successful toggle changes only the timers with the id, saves the list and leaves the interval scheduled; a failed write changes nothing, interval included; loading flag, sort key and search text are kept |
| TimerList.Reset | store/timerStore.ts:166-175 | A reset timer has remaining time = duration, is idle and unpaused, has no completion time, and keeps its settings |
| TimerList.ResetMatchingIdempotent | store/timerStore.ts:166-177 | Resetting the same id twice equals resetting it once |
| TimerStore.ResetTimer | store/timerStore.ts:164-184 | resetTimer resets exactly the timers with the id, keeps the others and the order, and saves; a failed write changes nothing; loading flag, sort key, search text and interval are kept |
| TimerList.Patch | store/timerStore.ts:190 | Each field supplied by the update overwrites the timer's field and every field not supplied is kept |
| TimerList.PatchIdempotent | store/timerStore.ts:190 | Applying an update twice equals applying it once; the empty update changes nothing |
| TimerList.MapMatchingAbsent | store/timerStore.ts:188-193 | When no timer has the id, toggle, reset and update leave the list unchanged |
| TimerList.PatchMatchingKeepsBound | store/timerStore.ts:188-193 | An update that sets a consistent duration and remaining time keeps every remaining time within its duration |
| TimerStore.UpdateTimer | store/timerStore.ts:186-200 | updateTimer patches exactly the timers with the id, keeps length, order and the other timers, is a no-op on the list for an absent id, and saves; loading flag, sort key, search text and interval are kept |
| TimerStore.SetSortBy | store/timerStore.ts:202 | Setting the sort key changes nothing else in the store |
| TimerStore.SetSearchQuery | store/timerStore.ts:203 | Setting the search text changes nothing else in the store |
| TimerStore.Initial | store/timerStore.ts:25-31 | The store starts with no timers, isLoading true, sorted by status, an empty search and no interval; a successful start-up load then shows exactly what storage holds, or no timers when nothing is stored |
| TimerStore.LoadTimers | store/timerStore.ts:34-46 | Loading always ends with isLoading false; it takes the stored list when the read succeeds and something is stored, and otherwise keeps the list |
| TimerStore.Commit | store/timerStore.ts:64-65 | Storage is written before the publish: a failed write leaves the state as it was, a successful one publishes exactly what was saved |
| TimerStore.MutationIsWriteThenPublish | store/timerStore.ts:63-68 | Every list mutation either changes nothing (failed write) or ends with the published list equal to the saved one |
| TimerStore.ReloadReproduces | store/timerStore.ts:36-38 | A reload at start-up gives back the current list exactly when the list is the saved one, or both are empty/absent |
| TimerStore.StepKeepsReloadSafe | store/timerStore.ts:34-203 | No action, with its storage call succeeding or failing, breaks reload safety |
| TimerStore.RunKeepsReloadSafe | store/timerStore.ts:34-203 | After any sequence of actions from a reload-safe state, restarting the app and loading reproduces the list |
| TimerStore.StepKeepsBounded | store/timerStore.ts:48-200 | No action pushes a remaining time above its duration, given consistent updates |
| TimerStore.StepKeepsRunningHasInterval | store/timerStore.ts:116-157 | Except for load and updates that set the running flag, every action keeps "some timer running implies the interval is scheduled" |
| Tick.TickTimer | store/timerStore.ts:123-131 | A counting timer loses exactly one second and gets completion time now exactly when that second was its last, else none; every other timer is unchanged; flags and settings are kept |
| Tick.TickAll | store/timerStore.ts:122-132 | The tick's `.map`: same length and order, each timer replaced by its own countdown step |
| Tick.Alerts | store/timerStore.ts:139-149 | One alert per timer at zero still flagged running, and only for those |
| Tick.TickKeepsRunning | store/timerStore.ts:122-132 | A tick never changes a running flag, so "anything running" is the same before and after |
| Tick.TickKeepsBound | store/timerStore.ts:122-132 | Ticking never raises a remaining time and keeps it within the duration |
| Tick.RingsAfterTick | store/timerStore.ts:122-140 | After a tick a timer rings exactly when it was running with at most one second left |
| Tick.CompletionStampedOnce | store/timerStore.ts:123-128 | The tick from 1 to 0 stamps completion time now, and later ticks leave the finished timer unchanged |
| TimerStore.TickStep | store/timerStore.ts:118-157 | With nothing counting, a tick writes nothing and raises no alerts. Otherwise it saves and publishes the ticked list and alerts for the ringing timers, or changes nothing if the write fails. Once it completes, the interval stops exactly when no timer is running |
| TimerStore.FinishedTimerAlertsAgain | store/timerStore.ts:139-140 | A finished timer still flagged running is alerted for again whenever another timer counts down |
| TimerStore.FinishedTimerKeepsInterval | store/timerStore.ts:153-156 | While a finished timer is flagged running, a completed tick never stops the interval |
| Scenarios.CreateAndStartA | store/timerStore.ts:48-118 | Creating a 3 s timer at clock 7 gives id "7"; starting it schedules the interval |
| Scenarios.SingleTimerRunsOut | store/timerStore.ts:118-157 | Three ticks run the 3 s timer out with one alert on the third, completion stamped, still running, interval kept; a fourth tick does nothing |
| Scenarios.CreateBoth | store/timerStore.ts:48-69 | Two adds append the timers in order with decimal ids |
| Scenarios.StartBoth | store/timerStore.ts:100-117 | Toggling each id starts exactly that timer |
| Scenarios.TwoTimersAlertRepeatedly | store/timerStore.ts:118-157 | With 5 s and 2 s timers: after two ticks 3 s and 0 s remain, the 2 s timer is alerted, and it is alerted again on the third tick |
| Scenarios.LoadedRunningTimerStaysFrozen | store/timerStore.ts:34-46 | A timer saved while running is loaded running, but no interval is scheduled, so a tick does nothing |
| Text.KeepDigits | app/edit.tsx:68 | The filter keeps every digit of the typed text, in order, and nothing else |
| Text.KeepDigitsOfDigits | app/edit.tsx:68 | Text that is all digits passes the filter unchanged |
| Text.ToDecimal | app/edit.tsx:51-53 | A number's decimal text is non-empty digits without a leading zero |
| Text.ValueOfToDecimal | app/edit.tsx:51-53 | Reading back a number's decimal text gives the number |
| Text.ToDecimalInjective | store/timerStore.ts:52 | Ids made from different clock readings differ |
| Text.Trim | app/edit.tsx:89 | The trimmed text is blank exactly when the text is all white space; otherwise it has no white space at either end and is the middle of the text between all-space margins |
| Text.TrimIdempotent | app/edit.tsx:110-111 | Trimming twice equals trimming once |
| EditScreen.Decompose | app/edit.tsx:51-53 | The split gives minutes and seconds below 60 that add back up, with the hours, to the duration |
| EditScreen.DecomposeTotal | app/edit.tsx:95-96 | Hours, minutes < 60 and seconds < 60 are recovered from their total, so split and sum are inverse |
| EditScreen.FindTimer | app/edit.tsx:43 | The lookup returns the first timer with the id, or nothing exactly when no timer has it |
| EditScreen.LoadForm | app/edit.tsx:42-56 | The form exists exactly when the id does. It shows the timer's name, description (blank when absent) and colour, and its boxes are well formed |
| EditScreen.LoadFormTotal | app/edit.tsx:51-53 | Reading the loaded boxes back gives the timer's duration |
| EditScreen.ChangeHours | app/edit.tsx:67-70 | The hours box takes the digits of the typed text, possibly none; nothing else changes and the form stays well formed |
| EditScreen.UnderSixtyInput | app/edit.tsx:73-77 | Typed digits reading below 60 are taken; otherwise, including no digits at all, the previous text stays; a valid box stays valid |
| EditScreen.ChangeMinutes | app/edit.tsx:72-78 | The minutes box follows the under-60 rule, nothing else changes, the form stays well formed |
| EditScreen.ChangeSeconds | app/edit.tsx:80-86 | The seconds box follows the under-60 rule, nothing else changes, the form stays well formed |
| EditScreen.DefaultFormWellFormed | app/edit.tsx:35-37 | The initial boxes "0", "0", "0" are well formed |
| EditScreen.ParseInt | app/edit.tsx:96 | parseInt of digits is not-a-number exactly for the empty text and otherwise the value |
| EditScreen.FormTotal | app/edit.tsx:95-96 | The total is not-a-number exactly when the hours box is empty, else hours*3600 + minutes*60 + seconds |
| EditScreen.SubmitsAsWritten | app/edit.tsx:89-106 | The checks as written pass exactly when the trimmed name is non-blank, the total is not the number 0 and the id exists; with an empty hours box (a not-a-number total) they pass whenever name and id do |
| EditScreen.ClearedHoursSubmitNaN | app/edit.tsx:67-70 | Clearing the hours box of a loaded 3605 s timer passes the written checks with a not-a-number total; the corrected handler refuses it |
| EditScreen.HandleUpdate | app/edit.tsx:88-115 | An update is submitted exactly when the trimmed name is non-blank, the total is a positive number and the id exists; the checks run in that order, so a blank name gives the name alert, then a missing or non-positive total the duration alert, then an unknown id "Timer not found". The payload sets duration = remaining time = total, the trimmed name and description and the colour; it never supplies id, running or paused flags, creation or completion time |
| EditScreen.CorrectedAgreesOnNumbers | app/edit.tsx:95-100 | The corrected handler and the written checks agree whenever the hours box is not empty |
| EditScreen.UnchangedFormResubmits | app/edit.tsx:42-115 | Opening a timer with a non-blank name and positive duration and saving unchanged submits its own duration |
| EditScreen.SubmitThroughStore | app/edit.tsx:109-115 | Saving an edit sets duration = remaining time = total on the matching timers and keeps their id, flags, creation and completion times; other timers are unchanged |

## Left out

- Screens, navigation (`router.back`), styling, colour schemes and the `maxLength={2}`
  box limit are presentation. So hours above 99 are possible in the model, as they are
  when a long timer is loaded.
- `handleNameChange` and `handleDescriptionChange` store the typed text unchanged.
  The form's name and description are arbitrary strings.
- Haptics, audio and the `Platform.OS !== 'web'` test are not modelled. An alert is the
  alerted timer's id; on web the source plays nothing for the same ids.
- AsyncStorage and JSON are not modelled. Storage is a mirror of the timer list, and
  serialising then parsing is taken to give the list back. `JSON.parse` failures count
  as a failed read.
- `setInterval`, `async`/`await` and event-loop interleaving are not modelled. Each
  action and each tick is one atomic step, and the interval is a flag.
- `Date.now()` is not modelled. Clock readings are parameters; `AddTimer` takes two,
  for the id and for `createdAt`.
- Tick.TickAll: one tick stamps every timer finishing in it with the same `now`. The
  source reads `Date.now()` once per finishing timer (store/timerStore.ts:128), so two
  timers finishing together may get stamps a millisecond apart.
- Id uniqueness is not assumed, so id-keyed actions act on every timer carrying the id.
- JavaScript numbers are not modelled. Durations and times are `nat`. Floating point,
  negative values and exponent notation in `toString` are outside the model. NaN is
  modelled only for the edit screen's total.
- The store can also receive a NaN duration from the create screen. Its boxes are not
  filtered, so an emptied box gives `parseInt('')` = NaN, which passes its "all zero"
  check, and `addTimer` then computes a NaN total (store/timerStore.ts:50). Durations
  are `nat`, so such timers are outside the model. In the source such a timer never
  counts down (`NaN > 0` is false), never rings, and is dropped by `clearCompleted`.
- `parseInt` is only modelled on digit strings, because the duration boxes only ever
  hold digits (`EditScreen.WellFormed`).
- `TimerGroup` is not modelled: it is a list-view grouping the store never uses. The
  sorted and searched views are not modelled either: the store only records the key
  and the text.
- TimerStore.TickStep: the interval callback runs only while the interval is
  scheduled, which the model states as a precondition.
- The create screen's own checks are not modelled; the store accepts any input.

## Findings

| source | as written | input that shows it | evidently intended | confidence | as-written member | corrected member |
|---|---|---|---|---|---|---|
| app/edit.tsx:67-70, 95-100 | The hours box may become empty. `parseInt('')` is NaN, `NaN === 0` is false, so `updateTimer` gets NaN as duration and remaining time | Open a 3605 s timer, clear the hours box, press "Update Timer" | A total that is not a positive number is refused like a zero one | not executed; high that NaN is unintended, medium on refusing rather than reading the empty box as 0 | EditScreen.SubmitsAsWritten, EditScreen.ClearedHoursSubmitNaN | EditScreen.HandleUpdate, EditScreen.CorrectedAgreesOnNumbers |
