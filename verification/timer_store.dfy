/** The timer store: the state the screens observe, every action on it, and the
    persistence protocol. A mutation computes the new list, writes it to storage, and
    only then publishes it; when the write fails the action stops there, so both the
    published list and the stored copy stay as they were. Storage is an abstract mirror
    (`stored`, None when nothing has been saved), the interval is the flag
    `intervalActive`, the clock is the parameter `now` and a failing storage call is
    the parameter `fails`. */
module TimerStore {
  import opened Wrappers
  import opened Seqs
  import opened TimerTypes
  import TimerList
  import opened Tick

  datatype State = State(
    timers: seq<Timer>,
    isLoading: bool,
    sortBy: SortKey,
    searchQuery: string,
    stored: Option<seq<Timer>>,
    intervalActive: bool)

  /** The store as the app starts: nothing loaded yet, sorted by status, no search, no
      interval; `stored` is whatever the device kept from earlier runs. */
  function Initial(stored: Option<seq<Timer>>): (r: State)
    ensures r.timers == [] && r.isLoading && r.sortBy == ByStatus && r.searchQuery == ""
    ensures !r.intervalActive && r.stored == stored
    ensures LoadTimers(r, false).timers == stored.GetOr([])
    ensures !LoadTimers(r, false).isLoading && !LoadTimers(r, false).intervalActive
  {
    State([], true, ByStatus, "", stored, false)
  }

  /** The published list is the one in storage. */
  predicate Synced(s: State) { s.stored == Some(s.timers) }

  /** Write `ts` to storage, then publish it; a failing write skips the publish. */
  function Commit(s: State, ts: seq<Timer>, fails: bool): (r: State)
    ensures fails ==> r == s
    ensures !fails ==> r.timers == ts && Synced(r)
    ensures r.isLoading == s.isLoading && r.sortBy == s.sortBy && r.searchQuery == s.searchQuery
    ensures r.intervalActive == s.intervalActive
  {
    if fails then s else s.(timers := ts, stored := Some(ts))
  }

  /** `loadTimers`: always ends loading; replaces the list with the stored one when the
      read succeeds and something is stored, and keeps it otherwise. */
  function LoadTimers(s: State, fails: bool): (r: State)
    ensures !r.isLoading
    ensures !fails && s.stored.Some? ==> r.timers == s.stored.value
    ensures fails || s.stored.None? ==> r.timers == s.timers
    ensures r.stored == s.stored && r.sortBy == s.sortBy && r.searchQuery == s.searchQuery
    ensures r.intervalActive == s.intervalActive
  {
    if !fails && s.stored.Some? then s.(timers := s.stored.value, isLoading := false)
    else s.(isLoading := false)
  }

  /** `addTimer`: appends exactly one new timer after the existing ones. */
  function AddTimer(s: State, input: CreateTimerInput, idTime: nat, createdAt: nat, fails: bool): (r: State)
    ensures fails ==> r == s
    ensures !fails ==> && |r.timers| == |s.timers| + 1
                       && r.timers[..|s.timers|] == s.timers
                       && r.timers[|s.timers|] == TimerList.NewTimer(input, idTime, createdAt)
                       && Synced(r)
    ensures r.(timers := s.timers, stored := s.stored) == s
  {
    var t := TimerList.NewTimer(input, idTime, createdAt);
    var r := Commit(s, s.timers + [t], fails);
    assert !fails ==> r.timers[..|s.timers|] == s.timers;
    r
  }

  /** `removeTimer`: keeps, in order, exactly the timers whose id differs. */
  function RemoveTimer(s: State, id: string, fails: bool): (r: State)
    ensures fails ==> r == s
    ensures !fails ==> && r.timers == TimerList.WithoutId(s.timers, id) && Synced(r)
                       && Subsequence(r.timers, s.timers)
                       && (forall t :: multiset(r.timers)[t] == if t.id != id then multiset(s.timers)[t] else 0)
    ensures !TimerList.HasId(s.timers, id) ==> r.timers == s.timers
    ensures r.(timers := s.timers, stored := s.stored) == s
  {
    Commit(s, TimerList.WithoutId(s.timers, id), fails)
  }

  /** `clearCompleted`: keeps, in order, exactly the timers with time left, whatever
      their running or paused flags. */
  function ClearCompleted(s: State, fails: bool): (r: State)
    ensures fails ==> r == s
    ensures !fails ==> && Synced(r) && Subsequence(r.timers, s.timers)
                       && (forall t :: multiset(r.timers)[t] == if t.remainingTime > 0 then multiset(s.timers)[t] else 0)
    ensures r.(timers := s.timers, stored := s.stored) == s
  {
    Commit(s, TimerList.Pending(s.timers), fails)
  }

  /** `deleteAllTimers`: stores and publishes the empty list. */
  function DeleteAllTimers(s: State, fails: bool): (r: State)
    ensures fails ==> r == s
    ensures !fails ==> r.timers == [] && r.stored == Some([])
    ensures r.(timers := s.timers, stored := s.stored) == s
  {
    Commit(s, [], fails)
  }

  /** `toggleTimer`: starts or pauses every timer with the id and, once that is saved,
      starts the interval if it is not already going, whether or not anything now runs. */
  function ToggleTimer(s: State, id: string, fails: bool): (r: State)
    ensures fails ==> r == s
    ensures !fails ==> && r.intervalActive && Synced(r) && |r.timers| == |s.timers|
                       && forall i :: 0 <= i < |s.timers| ==>
                            r.timers[i] == if s.timers[i].id == id then TimerList.Toggle(s.timers[i]) else s.timers[i]
    ensures r.(timers := s.timers, stored := s.stored, intervalActive := s.intervalActive) == s
  {
    var r := Commit(s, TimerList.ToggleMatching(s.timers, id), fails);
    if fails then r else r.(intervalActive := true)
  }

  /** `resetTimer`: every timer with the id goes back to full time, idle and unpaused,
      without a completion time; the others are untouched. */
  function ResetTimer(s: State, id: string, fails: bool): (r: State)
    ensures fails ==> r == s
    ensures !fails ==> && Synced(r) && |r.timers| == |s.timers|
                       && forall i :: 0 <= i < |s.timers| ==>
                            && (s.timers[i].id == id ==> r.timers[i] == TimerList.Reset(s.timers[i]))
                            && (s.timers[i].id != id ==> r.timers[i] == s.timers[i])
    ensures r.(timers := s.timers, stored := s.stored) == s
  {
    Commit(s, TimerList.ResetMatching(s.timers, id), fails)
  }

  /** `updateTimer`: every timer with the id takes the supplied fields; length, order and
      the other timers are kept, and an absent id changes no timer. */
  function UpdateTimer(s: State, id: string, p: TimerPatch, fails: bool): (r: State)
    ensures fails ==> r == s
    ensures !fails ==> && Synced(r) && |r.timers| == |s.timers|
                       && forall i :: 0 <= i < |s.timers| ==>
                            && (s.timers[i].id == id ==> r.timers[i] == TimerList.Patch(s.timers[i], p))
                            && (s.timers[i].id != id ==> r.timers[i] == s.timers[i])
    ensures !TimerList.HasId(s.timers, id) ==> r.timers == s.timers
    ensures r.(timers := s.timers, stored := s.stored) == s
  {
    Commit(s, TimerList.PatchMatching(s.timers, id, p), fails)
  }

  /** `setSortBy` and `setSearchQuery` only record the view settings; they never touch
      storage or the list. */
  function SetSortBy(s: State, key: SortKey): (r: State)
    ensures r.sortBy == key && r.(sortBy := s.sortBy) == s
  {
    s.(sortBy := key)
  }

  function SetSearchQuery(s: State, query: string): (r: State)
    ensures r.searchQuery == query && r.(searchQuery := s.searchQuery) == s
  {
    s.(searchQuery := query)
  }

  /** A tick's effect on the store and the ids it alerts for. */
  datatype TickOutcome = TickOutcome(state: State, alerts: seq<string>)

  /** One run of the interval callback. If no timer counts down nothing is written or
      published and nothing alerts. Otherwise the ticked list is written and published
      and an alert goes out for every timer at zero that is still flagged running. The
      callback has no error handler: a failed write abandons it before the publish, the
      alerts and the interval check. After a completed run the interval is stopped
      exactly when no timer is flagged running. */
  function TickStep(s: State, now: nat, fails: bool): (r: TickOutcome)
    requires s.intervalActive
    ensures !AnyCountsDown(s.timers) ==> r.state.timers == s.timers && r.state.stored == s.stored && r.alerts == []
    ensures AnyCountsDown(s.timers) && fails ==> r == TickOutcome(s, [])
    ensures AnyCountsDown(s.timers) && !fails ==>
              && r.state.timers == TickAll(s.timers, now) && Synced(r.state)
              && r.alerts == Alerts(r.state.timers)
    ensures !(AnyCountsDown(s.timers) && fails) ==> (r.state.intervalActive <==> AnyRunning(s.timers))
    ensures r.state.isLoading == s.isLoading && r.state.sortBy == s.sortBy && r.state.searchQuery == s.searchQuery
  {
    var next := TickAll(s.timers, now);
    TickKeepsRunning(s.timers, now);
    if !AnyCountsDown(s.timers) then
      assert next == s.timers;
      TickOutcome(s.(intervalActive := AnyRunning(next)), [])
    else if fails then
      TickOutcome(s, [])
    else
      TickOutcome(s.(timers := next, stored := Some(next), intervalActive := AnyRunning(next)), Alerts(next))
  }

  /** Every way the store can change: the screens' actions and the interval firing. */
  datatype Action =
    | Load
    | Add(input: CreateTimerInput, idTime: nat, createdAt: nat)
    | Remove(id: string)
    | ClearDone
    | DeleteAll
    | Toggle(id: string)
    | Reset(id: string)
    | Update(id: string, patch: TimerPatch)
    | Sort(key: SortKey)
    | Search(query: string)
    | Fire(now: nat)

  /** One action; `fails` says whether its storage call throws. The interval only fires
      while it is scheduled. */
  function Step(s: State, a: Action, fails: bool): TickOutcome
  {
    match a
    case Load => TickOutcome(LoadTimers(s, fails), [])
    case Add(input, idTime, createdAt) => TickOutcome(AddTimer(s, input, idTime, createdAt, fails), [])
    case Remove(id) => TickOutcome(RemoveTimer(s, id, fails), [])
    case ClearDone => TickOutcome(ClearCompleted(s, fails), [])
    case DeleteAll => TickOutcome(DeleteAllTimers(s, fails), [])
    case Toggle(id) => TickOutcome(ToggleTimer(s, id, fails), [])
    case Reset(id) => TickOutcome(ResetTimer(s, id, fails), [])
    case Update(id, p) => TickOutcome(UpdateTimer(s, id, p, fails), [])
    case Sort(key) => TickOutcome(SetSortBy(s, key), [])
    case Search(query) => TickOutcome(SetSearchQuery(s, query), [])
    case Fire(now) => if s.intervalActive then TickStep(s, now, fails) else TickOutcome(s, [])
  }

  /** The state after a sequence of actions, `fails[k]` telling whether the k-th one's
      storage call throws. */
  function Run(s: State, actions: seq<Action>, fails: seq<bool>): State
    requires |fails| == |actions|
    decreases |actions|
  {
    if |actions| == 0 then s
    else Run(Step(s, actions[0], fails[0]).state, actions[1..], fails[1..])
  }

  /** Restarting the app and loading would give back exactly the current list. */
  predicate ReloadSafe(s: State)
  {
    Synced(s) || (s.stored == None && s.timers == [])
  }

  /** A reload at start-up reproduces the list exactly when the state is ReloadSafe. */
  lemma ReloadReproduces(s: State)
    ensures LoadTimers(Initial(s.stored), false).timers == s.timers <==> ReloadSafe(s)
  {
  }

  /** No action, whether its storage call succeeds or fails, loses reload safety: a failed
      write leaves list and storage alone, a successful one makes them equal. */
  lemma StepKeepsReloadSafe(s: State, a: Action, fails: bool)
    requires ReloadSafe(s)
    ensures ReloadSafe(Step(s, a, fails).state)
  {
  }

  /** So from a fresh start, or from any ReloadSafe state, every run ends ReloadSafe. */
  lemma {:induction false} RunKeepsReloadSafe(s: State, actions: seq<Action>, fails: seq<bool>)
    requires |fails| == |actions| && ReloadSafe(s)
    ensures ReloadSafe(Run(s, actions, fails))
    ensures LoadTimers(Initial(Run(s, actions, fails).stored), false).timers == Run(s, actions, fails).timers
    decreases |actions|
  {
    if |actions| > 0 {
      StepKeepsReloadSafe(s, actions[0], fails[0]);
      RunKeepsReloadSafe(Step(s, actions[0], fails[0]).state, actions[1..], fails[1..]);
    }
    ReloadReproduces(Run(s, actions, fails));
  }

  /** A failed storage write in any list mutation changes neither the list nor storage;
      a successful one leaves them equal. */
  lemma MutationIsWriteThenPublish(s: State, a: Action, fails: bool)
    requires a.Add? || a.Remove? || a.ClearDone? || a.DeleteAll? || a.Toggle? || a.Reset? || a.Update?
    ensures fails ==> Step(s, a, fails).state == s
    ensures !fails ==> Synced(Step(s, a, fails).state)
  {
  }

  predicate StoreBounded(s: State)
  {
    TimerList.AllBounded(s.timers) && (s.stored.Some? ==> TimerList.AllBounded(s.stored.value))
  }

  /** No action pushes a remaining time above its duration, provided updates supply a
      consistent duration and remaining time (the edit screen's do). */
  lemma StepKeepsBounded(s: State, a: Action, fails: bool)
    requires StoreBounded(s)
    requires a.Update? ==> TimerList.PatchKeepsBound(a.patch)
    ensures StoreBounded(Step(s, a, fails).state)
  {
    match a
    case Update(id, p) => TimerList.PatchMatchingKeepsBound(s.timers, id, p);
    case Fire(now) => TickKeepsBound(s.timers, now);
    case Remove(id) =>
      var r := TimerList.WithoutId(s.timers, id);
      forall i | 0 <= i < |r| ensures TimerList.Bounded(r[i]) {
        assert multiset(r)[r[i]] > 0;
      }
    case ClearDone =>
      var r := TimerList.Pending(s.timers);
      forall i | 0 <= i < |r| ensures TimerList.Bounded(r[i]) {
        assert multiset(r)[r[i]] > 0;
      }
    case _ =>
  }

  /** While any timer is flagged running the interval is scheduled. */
  predicate RunningHasInterval(s: State) { AnyRunning(s.timers) ==> s.intervalActive }

  /** Every action except loading and an update that sets the running flag keeps
      RunningHasInterval: starting a timer schedules the interval and a tick only stops
      it when nothing runs. */
  lemma StepKeepsRunningHasInterval(s: State, a: Action, fails: bool)
    requires RunningHasInterval(s)
    requires !a.Load? && (a.Update? ==> a.patch.isRunning.None?)
    ensures RunningHasInterval(Step(s, a, fails).state)
  {
    var r := Step(s, a, fails).state;
    if AnyRunning(r.timers) && !fails {
      var i :| 0 <= i < |r.timers| && r.timers[i].isRunning;
      match a
      case Remove(id) => assert multiset(r.timers)[r.timers[i]] > 0;
      case ClearDone => assert multiset(r.timers)[r.timers[i]] > 0;
      case Add(input, idTime, createdAt) => assert i < |s.timers| && s.timers[i] == r.timers[i];
      case Reset(id) => assert s.timers[i].isRunning;
      case Update(id, p) => assert s.timers[i].isRunning;
      case Fire(now) => TickKeepsRunning(s.timers, now);
      case _ =>
    }
  }

  /** A timer that has finished but is still flagged running is alerted for again on every
      tick in which some other timer counts down. */
  lemma FinishedTimerAlertsAgain(s: State, now: nat, i: nat)
    requires s.intervalActive && i < |s.timers|
    requires Rings(s.timers[i]) && AnyCountsDown(s.timers)
    ensures s.timers[i].id in TickStep(s, now, false).alerts
  {
    var next := TickAll(s.timers, now);
    assert next[i] == s.timers[i];
  }

  /** A finished timer keeps the interval alive: after a completed tick the interval is
      still scheduled while any timer, finished or not, is flagged running. */
  lemma FinishedTimerKeepsInterval(s: State, now: nat, i: nat)
    requires s.intervalActive && i < |s.timers| && Rings(s.timers[i])
    ensures TickStep(s, now, false).state.intervalActive
  {
  }
}
